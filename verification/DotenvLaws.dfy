/** Every way of writing a dotenv file, and that it reads back: with or without `export`, blanks,
    comments and empty lines, in plain, single-quoted or double-quoted pieces, with escapes, over
    one line or several. */
module DotenvLaws {
  import opened Common
  import opened Characters
  import opened Dotenv

  // ----- writing a value

  /** The code after a backslash, and the character it stands for. */
  ghost predicate StandsFor(code: char, c: char) {
    || (code == '\\' && c == '\\')
    || (code == '\'' && c == '\'')
    || (code == '"' && c == '"')
    || (code == '$' && c == '$')
    || (code == ' ' && c == ' ')
    || (code == 'n' && c == '\n')
  }

  datatype Part = Raw(c: char) | Esc(code: char, c: char)

  datatype Piece = Bare(part: Part) | SingleQuoted(text: string) | DoubleQuoted(parts: seq<Part>)

  function PartText(p: Part): string {
    if p.Raw? then [p.c] else ['\\', p.code]
  }

  function PartsText(ps: seq<Part>): string {
    if ps == [] then "" else PartText(ps[0]) + PartsText(ps[1..])
  }

  function PartsMeaning(ps: seq<Part>): string {
    if ps == [] then "" else [ps[0].c] + PartsMeaning(ps[1..])
  }

  ghost predicate IsPart(p: Part, special: set<char>) {
    if p.Raw? then p.c !in special else StandsFor(p.code, p.c)
  }

  ghost predicate AreParts(ps: seq<Part>, special: set<char>) {
    forall i :: 0 <= i < |ps| ==> IsPart(ps[i], special)
  }

  ghost predicate IsPiece(p: Piece) {
    match p
    case Bare(part) => IsPart(part, {' ', '\t', '\r', '\n', '\'', '"', '\\'})
    case SingleQuoted(text) => '\'' !in text
    case DoubleQuoted(parts) => AreParts(parts, {'"', '\\'})
  }

  function PieceText(p: Piece): string {
    match p
    case Bare(part) => PartText(part)
    case SingleQuoted(text) => "'" + text + "'"
    case DoubleQuoted(parts) => "\"" + PartsText(parts) + "\""
  }

  function PieceMeaning(p: Piece): string {
    match p
    case Bare(part) => [part.c]
    case SingleQuoted(text) => text
    case DoubleQuoted(parts) => PartsMeaning(parts)
  }

  function Text(ps: seq<Piece>): string {
    if ps == [] then "" else PieceText(ps[0]) + Text(ps[1..])
  }

  function Meaning(ps: seq<Piece>): string {
    if ps == [] then "" else PieceMeaning(ps[0]) + Meaning(ps[1..])
  }

  ghost predicate ArePieces(ps: seq<Piece>) {
    forall i :: 0 <= i < |ps| ==> IsPiece(ps[i])
  }

  // ----- and reading it

  lemma PartReads(quote: Quote, p: Part, rest: string)
    requires quote == Double && IsPart(p, {'"', '\\'})
    ensures ParseFrom(quote, false, PartText(p) + rest) == Push(p.c, ParseFrom(quote, false, rest))
  {
    var s := PartText(p) + rest;
    if p.Raw? {
      assert s[1..] == rest;
    } else {
      assert s[2..] == rest;
    }
  }

  lemma BareReads(p: Part, rest: string)
    requires IsPart(p, {' ', '\t', '\r', '\n', '\'', '"', '\\'})
    ensures ParseFrom(NoQuote, false, PartText(p) + rest) == Push(p.c, ParseFrom(NoQuote, false, rest))
  {
    var s := PartText(p) + rest;
    if p.Raw? {
      assert s[1..] == rest;
    } else {
      assert s[2..] == rest;
    }
  }

  lemma PushPush(c: char, more: string, p: Parsed)
    ensures Push(c, PushAll(more, p)) == PushAll([c] + more, p)
  {
    if p.Value? {
      assert [c] + (more + p.text) == [c] + more + p.text;
    }
  }

  lemma PushAllTwice(a: string, b: string, p: Parsed)
    ensures PushAll(a, PushAll(b, p)) == PushAll(a + b, p)
  {
    if p.Value? {
      assert a + (b + p.text) == a + b + p.text;
    }
  }

  lemma QuoteEnds(rest: string)
    ensures ParseFrom(Double, false, "\"" + rest) == ParseFrom(NoQuote, false, rest)
  {
    assert ("\"" + rest)[1..] == rest;
  }

  lemma PartsStep(ps: seq<Part>, rest: string)
    requires ps != []
    ensures PartsText(ps) + rest == PartText(ps[0]) + (PartsText(ps[1..]) + rest)
    ensures PartsMeaning(ps) == [ps[0].c] + PartsMeaning(ps[1..])
  {
  }

  lemma {:induction false} DoubleReads(ps: seq<Part>, rest: string)
    requires AreParts(ps, {'"', '\\'})
    ensures ParseFrom(Double, false, PartsText(ps) + ("\"" + rest))
         == PushAll(PartsMeaning(ps), ParseFrom(NoQuote, false, rest))
    decreases |ps|
  {
    hide IsPart, ParseFrom, PartText, PushAll, Push;
    if ps == [] {
      QuoteEnds(rest);
      assert PartsText(ps) + ("\"" + rest) == "\"" + rest;
      PushAllNothing(ParseFrom(NoQuote, false, rest));
    } else {
      hide PartsText, PartsMeaning;
      var more := PartsText(ps[1..]) + ("\"" + rest);
      DoubleReads(ps[1..], rest);
      PartReads(Double, ps[0], more);
      PartsStep(ps, "\"" + rest);
      PushPush(ps[0].c, PartsMeaning(ps[1..]), ParseFrom(NoQuote, false, rest));
    }
  }

  lemma {:induction false} SingleReads(text: string, rest: string)
    requires '\'' !in text
    ensures ParseFrom(Single, false, text + ("'" + rest)) == PushAll(text, ParseFrom(NoQuote, false, rest))
    decreases |text|
  {
    var s := text + ("'" + rest);
    if text == "" {
      assert s[1..] == rest;
      PushAllNothing(ParseFrom(NoQuote, false, rest));
    } else {
      SingleReads(text[1..], rest);
      assert s[1..] == text[1..] + ("'" + rest);
      PushPush(text[0], text[1..], ParseFrom(NoQuote, false, rest));
      assert [text[0]] + text[1..] == text;
    }
  }

  lemma QuoteOpens(rest: string)
    ensures ParseFrom(NoQuote, false, "'" + rest) == ParseFrom(Single, false, rest)
    ensures ParseFrom(NoQuote, false, "\"" + rest) == ParseFrom(Double, false, rest)
  {
    assert ("'" + rest)[1..] == rest;
    assert ("\"" + rest)[1..] == rest;
  }

  lemma {:induction false} PieceReads(p: Piece, rest: string)
    requires IsPiece(p)
    ensures ParseFrom(NoQuote, false, PieceText(p) + rest) == PushAll(PieceMeaning(p), ParseFrom(NoQuote, false, rest))
  {
    hide ParseFrom, PartsText, PartsMeaning, IsPart, AreParts, PartText;
    match p
    case Bare(part) =>
      BareReads(part, rest);
      PushAllNothing(ParseFrom(NoQuote, false, rest));
      PushPush(part.c, "", ParseFrom(NoQuote, false, rest));
    case SingleQuoted(text) =>
      SingleReads(text, rest);
      QuoteOpens(text + ("'" + rest));
      assert "'" + (text + ("'" + rest)) == PieceText(p) + rest;
    case DoubleQuoted(parts) =>
      DoubleReads(parts, rest);
      QuoteOpens(PartsText(parts) + ("\"" + rest));
      assert "\"" + (PartsText(parts) + ("\"" + rest)) == PieceText(p) + rest;
  }

  /** Whatever follows them, pieces contribute what they stand for. */
  lemma {:induction false} PiecesRead(ps: seq<Piece>, rest: string)
    requires ArePieces(ps)
    ensures ParseFrom(NoQuote, false, Text(ps) + rest) == PushAll(Meaning(ps), ParseFrom(NoQuote, false, rest))
    decreases |ps|
  {
    hide ParseFrom, IsPiece, PieceText, PieceMeaning;
    if ps == [] {
      assert Text(ps) + rest == rest;
      PushAllNothing(ParseFrom(NoQuote, false, rest));
    } else {
      PiecesRead(ps[1..], rest);
      PieceReads(ps[0], Text(ps[1..]) + rest);
      assert Text(ps) + rest == PieceText(ps[0]) + (Text(ps[1..]) + rest);
      PushAllTwice(PieceMeaning(ps[0]), Meaning(ps[1..]), ParseFrom(NoQuote, false, rest));
    }
  }

  // ----- what may follow a value on its line

  datatype Trail = Nothing | Blanks(blanks: string) | Comment(blanks: string, text: string)

  function TrailText(t: Trail): string {
    match t
    case Nothing => ""
    case Blanks(blanks) => blanks
    case Comment(blanks, text) => blanks + "#" + text
  }

  ghost predicate OnlyBlanks(s: string) {
    forall i :: 0 <= i < |s| ==> s[i] in {' ', '\t', '\r'}
  }

  ghost predicate IsTrail(t: Trail) {
    match t
    case Nothing => true
    case Blanks(blanks) => OnlyBlanks(blanks)
    case Comment(blanks, text) => blanks != "" && OnlyBlanks(blanks) && '\n' !in text
  }

  lemma {:induction false} EndReads(blanks: string, rest: string)
    requires OnlyBlanks(blanks) && (rest == "" || rest[0] == '#')
    ensures ParseFrom(NoQuote, true, blanks + rest) == Value("")
    decreases |blanks|
  {
    if blanks == "" {
      assert blanks + rest == rest;
    } else {
      assert (blanks + rest)[1..] == blanks[1..] + rest;
      EndReads(blanks[1..], rest);
    }
  }

  lemma TrailReads(t: Trail)
    requires IsTrail(t)
    ensures ParseFrom(NoQuote, false, TrailText(t)) == Value("")
  {
    if t.Blanks? && t.blanks != "" {
      EndReads(t.blanks[1..], "");
      assert t.blanks[1..] + "" == t.blanks[1..];
    } else if t.Comment? {
      EndReads(t.blanks[1..], "#" + t.text);
      assert TrailText(t)[1..] == t.blanks[1..] + ("#" + t.text);
    }
  }

  // ----- and where the scanner lets it end

  /** Started in `s`, the scanner asks for more at every line break of `text` and is done at its
      end. */
  ghost predicate Closes(s: Scan, text: string) {
    RunsOn(s, Split(text)) && LastVerdict(s, Split(text))
  }

  /** A character that is no line break. */
  lemma StepCloses(s: Scan, c: char, text: string)
    requires c != '\n' && ScanStep(s, c).Some?
    ensures Closes(s, [c] + text) <==> Closes(ScanStep(s, c).value, text)
  {
    hide ScanStep;
    assert ([c] + text)[1..] == text;
    var lines := Split(text);
    var more := Split([c] + text);
    assert more == [[c] + lines[0]] + lines[1..];
    assert more[1..] == lines[1..];
    assert more[0][1..] == lines[0];
    assert ScanLine(s, more[0]) == ScanLine(ScanStep(s, c).value, lines[0]);
  }

  /** A line break is crossed inside quotes only. */
  lemma BreakCloses(s: Scan, text: string)
    requires !s.escaped
    ensures Closes(s, "\n" + text) <==> !s.quote.NoQuote? && Closes(s, text)
  {
    assert ("\n" + text)[1..] == text;
    assert ([""] + Split(text))[1..] == Split(text);
  }

  lemma QuotedCloses(s: Scan, c: char, text: string)
    requires !s.escaped && ScanStep(s, c) == Some(s) && !s.quote.NoQuote?
    ensures Closes(s, [c] + text) <==> Closes(s, text)
  {
    hide ScanStep, Closes;
    if c == '\n' {
      BreakCloses(s, text);
    } else {
      StepCloses(s, c, text);
    }
  }

  /** Between the pieces of a value, and before the first of them. */
  ghost predicate Between(s: Scan) {
    s.quote.NoQuote? && !s.escaped && !s.expectingEnd
  }

  const PAST := Scan(NoQuote, false, false, false)

  lemma {:induction false} SingleCloses(s: Scan, text: string, rest: string)
    requires s == PAST.(quote := Single) && '\'' !in text && Closes(PAST, rest)
    ensures Closes(s, text + ("'" + rest))
    decreases |text|
  {
    hide Closes;
    if text == "" {
      StepCloses(s, '\'', rest);
      assert text + ("'" + rest) == ['\''] + rest;
    } else {
      SingleCloses(s, text[1..], rest);
      QuotedCloses(s, text[0], text[1..] + ("'" + rest));
      assert text + ("'" + rest) == [text[0]] + (text[1..] + ("'" + rest));
    }
  }

  lemma PartCloses(s: Scan, p: Part, rest: string)
    requires s == PAST.(quote := Double) && IsPart(p, {'"', '\\'}) && Closes(s, rest)
    ensures Closes(s, PartText(p) + rest)
  {
    hide Closes;
    if p.Raw? {
      QuotedCloses(s, p.c, rest);
    } else {
      EscapeCloses(s, p.code, rest);
      assert PartText(p) + rest == "\\" + ([p.code] + rest);
    }
  }

  lemma EscapeCloses(s: Scan, code: char, rest: string)
    requires code != '\n' && !s.escaped && !s.expectingEnd && !s.quote.Single?
    ensures Closes(s, "\\" + ([code] + rest)) <==> Closes(s.(atStart := s.quote.Double? && s.atStart), rest)
  {
    hide Closes;
    StepCloses(s, '\\', [code] + rest);
    StepCloses(s.(escaped := true), code, rest);
  }

  lemma {:induction false} DoubleCloses(s: Scan, ps: seq<Part>, rest: string)
    requires s == PAST.(quote := Double) && AreParts(ps, {'"', '\\'}) && Closes(PAST, rest)
    ensures Closes(s, PartsText(ps) + ("\"" + rest))
    decreases |ps|
  {
    hide Closes, IsPart, PartText;
    if ps == [] {
      StepCloses(s, '"', rest);
      assert PartsText(ps) + ("\"" + rest) == ['"'] + rest;
    } else {
      DoubleCloses(s, ps[1..], rest);
      PartCloses(s, ps[0], PartsText(ps[1..]) + ("\"" + rest));
      assert PartsText(ps) + ("\"" + rest) == PartText(ps[0]) + (PartsText(ps[1..]) + ("\"" + rest));
    }
  }

  lemma BareCloses(s: Scan, p: Part, rest: string)
    requires Between(s) && IsPart(p, {' ', '\t', '\r', '\n', '\'', '"', '\\'})
    requires Closes(PAST, rest) && (s.atStart ==> p != Raw('#'))
    ensures Closes(s, PartText(p) + rest)
  {
    hide Closes;
    if p.Raw? {
      StepCloses(s, p.c, rest);
    } else {
      EscapeCloses(s, p.code, rest);
      assert PartText(p) + rest == "\\" + ([p.code] + rest);
    }
  }

  lemma PieceCloses(s: Scan, p: Piece, rest: string)
    requires Between(s) && IsPiece(p) && Closes(PAST, rest) && (s.atStart ==> p != Bare(Raw('#')))
    ensures Closes(s, PieceText(p) + rest)
  {
    hide Closes, PartsText, AreParts, PartText, IsPart;
    match p
    case Bare(part) => BareCloses(s, part, rest);
    case SingleQuoted(text) =>
      SingleCloses(PAST.(quote := Single), text, rest);
      StepCloses(s, '\'', text + ("'" + rest));
      assert "'" + (text + ("'" + rest)) == PieceText(p) + rest;
    case DoubleQuoted(parts) =>
      DoubleCloses(PAST.(quote := Double), parts, rest);
      StepCloses(s, '"', PartsText(parts) + ("\"" + rest));
      assert "\"" + (PartsText(parts) + ("\"" + rest)) == PieceText(p) + rest;
  }

  lemma {:induction false} PiecesClose(s: Scan, ps: seq<Piece>, rest: string)
    requires Between(s) && ArePieces(ps) && Closes(PAST, rest) && (ps == [] ==> s == PAST)
    requires s.atStart ==> ps != [] && ps[0] != Bare(Raw('#'))
    ensures Closes(s, Text(ps) + rest)
    decreases |ps|
  {
    hide Closes, PieceText, IsPiece;
    if ps == [] {
      assert Text(ps) + rest == rest;
    } else {
      PiecesClose(PAST, ps[1..], rest);
      PieceCloses(s, ps[0], Text(ps[1..]) + rest);
      assert Text(ps) + rest == PieceText(ps[0]) + (Text(ps[1..]) + rest);
    }
  }

  lemma {:induction false} SplitOneLine(line: string)
    requires '\n' !in line
    ensures Split(line) == [line]
  {
    if line != "" {
      SplitOneLine(line[1..]);
      assert [line[0]] + line[1..] == line;
    }
  }

  lemma {:induction false} EndCloses(s: Scan, blanks: string, rest: string)
    requires s == PAST.(expectingEnd := true)
    requires OnlyBlanks(blanks) && '\n' !in rest && (rest == "" || rest[0] == '#')
    ensures Closes(s, blanks + rest)
    decreases |blanks|
  {
    if blanks == "" {
      SplitOneLine(rest);
      assert blanks + rest == rest;
    } else {
      hide Closes;
      EndCloses(s, blanks[1..], rest);
      StepCloses(s, blanks[0], blanks[1..] + rest);
      assert [blanks[0]] + (blanks[1..] + rest) == blanks + rest;
    }
  }

  lemma TrailCloses(t: Trail)
    requires IsTrail(t)
    ensures Closes(PAST, TrailText(t))
  {
    hide Closes;
    if TrailText(t) == "" {
      NothingCloses();
    } else {
      var rest := if t.Blanks? then "" else "#" + t.text;
      BlanksClose(t.blanks, rest);
      assert t.blanks + rest == TrailText(t);
    }
  }

  lemma NothingCloses()
    ensures Closes(PAST, "")
  {
    SplitOneLine("");
  }

  lemma BlanksClose(blanks: string, rest: string)
    requires blanks != "" && OnlyBlanks(blanks) && '\n' !in rest && (rest == "" || rest[0] == '#')
    ensures Closes(PAST, blanks + rest)
  {
    hide Closes;
    EndCloses(PAST.(expectingEnd := true), blanks[1..], rest);
    StepCloses(PAST, blanks[0], blanks[1..] + rest);
    assert [blanks[0]] + (blanks[1..] + rest) == blanks + rest;
  }

  // ----- whole values

  /** A value begins with no blank and no `#`; where there is none, a comment may follow at once. */
  ghost predicate IsValue(ps: seq<Piece>, t: Trail) {
    && ArePieces(ps)
    && if ps == [] then t == Nothing || (t.Comment? && t.blanks == "" && '\n' !in t.text)
       else IsTrail(t) && (ps[0].Bare? && ps[0].part.Raw? ==> ps[0].part.c != '#' && !IsWhitespace(ps[0].part.c))
  }

  function Spelling(ps: seq<Piece>, t: Trail): string {
    Text(ps) + TrailText(t)
  }

  lemma FirstCharacter(ps: seq<Piece>, t: Trail)
    requires IsValue(ps, t) && ps != []
    ensures var v := Spelling(ps, t); v != "" && v[0] != '#' && !IsWhitespace(v[0])
  {
    var p := PieceText(ps[0]);
    assert p != "" && p[0] != '#' && !IsWhitespace(p[0]) by {
      assert IsPiece(ps[0]);
    }
    assert Spelling(ps, t)[0] == p[0];
  }

  lemma ValueReads(ps: seq<Piece>, t: Trail)
    requires IsValue(ps, t)
    ensures var v := Spelling(ps, t);
            ParseValue(v) == Value(Meaning(ps)) && Closes(FRESH, v) && (v != "" ==> !IsWhitespace(v[0]))
  {
    hide ParseFrom, Closes, IsPiece, Text, Meaning, TrailText;
    if ps == [] {
      NoPieces(t);
    } else {
      FirstCharacter(ps, t);
      PiecesRead(ps, TrailText(t));
      TrailReads(t);
      assert Meaning(ps) + "" == Meaning(ps);
      TrailCloses(t);
      PiecesClose(FRESH, ps, TrailText(t));
    }
  }

  lemma NoPieces(t: Trail)
    requires IsValue([], t)
    ensures var v := Spelling([], t);
            ParseValue(v) == Value(Meaning([])) && Closes(FRESH, v) && (v != "" ==> !IsWhitespace(v[0]))
  {
    hide ParseFrom;
    var v := Spelling([], t);
    assert v == TrailText(t);
    assert v == "" || v[0] == '#';
    SplitOneLine(v);
  }

  // ----- and no other text has a value

  /** `text` is pieces and a trail, standing for `v`. */
  ghost predicate Spells(ps: seq<Piece>, t: Trail, text: string, v: string) {
    ArePieces(ps) && IsTrail(t) && text == Text(ps) + TrailText(t) && v == Meaning(ps)
  }

  lemma SpellMore(p: Piece, ps: seq<Piece>, t: Trail, text: string, v: string)
    requires IsPiece(p) && Spells(ps, t, text, v)
    ensures Spells([p] + ps, t, PieceText(p) + text, PieceMeaning(p) + v)
  {
    hide IsPiece, PieceText, PieceMeaning, IsTrail, TrailText;
    assert ([p] + ps)[1..] == ps;
    assert PieceText(p) + (Text(ps) + TrailText(t)) == Text([p] + ps) + TrailText(t);
  }

  /** Past the value: blanks, then possibly a comment. */
  lemma {:induction false} EndForms(s: Scan, text: string) returns (blanks: string, rest: string)
    requires s == PAST.(expectingEnd := true) && Closes(s, text) && ParseFrom(NoQuote, true, text).Value?
    ensures text == blanks + rest && OnlyBlanks(blanks) && '\n' !in rest && (rest == "" || rest[0] == '#')
    ensures ParseFrom(NoQuote, true, text) == Value("")
    decreases |text|
  {
    if text == "" {
      return "", "";
    } else if IsBlank(text[0]) {
      assert [text[0]] + text[1..] == text;
      StepCloses(s, text[0], text[1..]);
      var more;
      more, rest := EndForms(s, text[1..]);
      blanks := [text[0]] + more;
    } else {
      OneLineLeft(s, text);
      return "", text;
    }
  }

  lemma OneLineLeft(s: Scan, text: string)
    requires s == PAST.(expectingEnd := true) && Closes(s, text) && text != "" && text[0] == '#'
    ensures '\n' !in text
  {
    var lines := Split(text);
    SplitFirst(text);
    assert ScanStep(s, text[0]) == None;
    assert ScanLine(s, lines[0]).1;
    assert |lines| == 1;
    SplitNoBreak(text);
  }

  lemma SplitFirst(text: string)
    requires text != "" && text[0] != '\n'
    ensures Split(text)[0] != "" && Split(text)[0][0] == text[0]
  {
  }

  lemma {:induction false} SplitNoBreak(text: string)
    requires |Split(text)| == 1
    ensures '\n' !in text
  {
    if text != "" {
      assert text[0] != '\n';
      SplitNoBreak(text[1..]);
      assert [text[0]] + text[1..] == text;
    }
  }

  lemma BlankReads(text: string)
    requires text != "" && IsBlank(text[0])
    ensures ParseFrom(NoQuote, false, text) == ParseFrom(NoQuote, true, text[1..])
  {
  }

  lemma TrailForms(text: string) returns (t: Trail)
    requires text != "" && IsBlank(text[0])
    requires Closes(PAST, text) && ParseFrom(NoQuote, false, text).Value?
    ensures IsTrail(t) && text == TrailText(t) && ParseFrom(NoQuote, false, text) == Value("")
  {
    hide Closes, ParseFrom;
    assert [text[0]] + text[1..] == text;
    StepCloses(PAST, text[0], text[1..]);
    BlankReads(text);
    var blanks, rest := EndForms(PAST.(expectingEnd := true), text[1..]);
    if rest == "" {
      t := Blanks([text[0]] + blanks);
    } else {
      t := Comment([text[0]] + blanks, rest[1..]);
      assert rest == "#" + rest[1..];
    }
  }

  /** Reading `[c]` off the front of a value. */
  lemma PushBack(c: char, p: Parsed, v: string)
    requires Push(c, p) == Value(v)
    ensures v != "" && v[0] == c && p == Value(v[1..]) && [c] + v[1..] == v
  {
  }

  lemma EscapeReads(quote: Quote, text: string, v: string)
    requires !quote.Single? && text != "" && text[0] == '\\' && ParseFrom(quote, false, text) == Value(v)
    ensures |text| >= 2 && text == "\\" + ([text[1]] + text[2..])
    ensures v != "" && v == [v[0]] + v[1..] && StandsFor(text[1], v[0])
    ensures ParseFrom(quote, false, text[2..]) == Value(v[1..])
  {
    PushBack(DecodeEscape(text[1]).value, ParseFrom(quote, false, text[2..]), v);
  }

  /** The first character of an unquoted stretch. */
  lemma OutsideReads(text: string, v: string)
    requires text != "" && ParseFrom(NoQuote, false, text) == Value(v)
    ensures text[0] == '\'' ==> ParseFrom(Single, false, text[1..]) == Value(v)
    ensures text[0] == '"' ==> ParseFrom(Double, false, text[1..]) == Value(v)
    ensures !IsBlank(text[0]) && text[0] !in {'\'', '"', '\\'} ==>
              && v != "" && v[0] == text[0] && v == [v[0]] + v[1..]
              && ParseFrom(NoQuote, false, text[1..]) == Value(v[1..])
  {
  }

  lemma InsideReads(quote: Quote, close: char, text: string, v: string)
    requires (quote == Single && close == '\'') || (quote == Double && close == '"')
    requires ParseFrom(quote, false, text) == Value(v)
    ensures text != "" && [text[0]] + text[1..] == text
    ensures text[0] == close ==> ParseFrom(NoQuote, false, text[1..]) == Value(v)
    ensures text[0] != close && (quote == Single || text[0] != '\\') ==>
              v != "" && v[0] == text[0] && v == [v[0]] + v[1..] && ParseFrom(quote, false, text[1..]) == Value(v[1..])
  {
  }

  lemma {:induction false} SingleForms(s: Scan, text: string, v: string)
    returns (quoted: string, ps: seq<Piece>, t: Trail, rest: string, more: string)
    requires s == PAST.(quote := Single) && Closes(s, text) && ParseFrom(Single, false, text) == Value(v)
    ensures '\'' !in quoted && Spells(ps, t, rest, more) && text == quoted + ("'" + rest) && v == quoted + more
    decreases |text|
  {
    hide ParseFrom, Closes, Spells;
    InsideReads(Single, '\'', text, v);
    if text[0] == '\'' {
      StepCloses(s, text[0], text[1..]);
      ps, t := PiecesForms(PAST, text[1..], v);
      quoted, rest, more := "", text[1..], v;
    } else {
      QuotedCloses(s, text[0], text[1..]);
      var q;
      q, ps, t, rest, more := SingleForms(s, text[1..], v[1..]);
      quoted := [text[0]] + q;
    }
  }

  lemma {:induction false} DoubleForms(s: Scan, text: string, v: string)
    returns (parts: seq<Part>, ps: seq<Piece>, t: Trail, rest: string, more: string)
    requires s == PAST.(quote := Double) && Closes(s, text) && ParseFrom(Double, false, text) == Value(v)
    ensures AreParts(parts, {'"', '\\'}) && Spells(ps, t, rest, more)
    ensures text == PartsText(parts) + ("\"" + rest) && v == PartsMeaning(parts) + more
    decreases |text|
  {
    hide ParseFrom, Closes, Spells;
    InsideReads(Double, '"', text, v);
    if text[0] == '"' {
      StepCloses(s, text[0], text[1..]);
      ps, t := PiecesForms(PAST, text[1..], v);
      parts, rest, more := [], text[1..], v;
    } else if text[0] == '\\' {
      EscapeReads(Double, text, v);
      assert text[1] != '\n';
      EscapeCloses(s, text[1], text[2..]);
      var others;
      others, ps, t, rest, more := DoubleForms(s, text[2..], v[1..]);
      parts := OnePartMore(Esc(text[1], v[0]), others, rest, more);
    } else {
      QuotedCloses(s, text[0], text[1..]);
      var others;
      others, ps, t, rest, more := DoubleForms(s, text[1..], v[1..]);
      parts := OnePartMore(Raw(text[0]), others, rest, more);
    }
  }

  lemma OnePartMore(p: Part, others: seq<Part>, rest: string, more: string) returns (parts: seq<Part>)
    requires IsPart(p, {'"', '\\'}) && AreParts(others, {'"', '\\'})
    ensures AreParts(parts, {'"', '\\'})
    ensures PartsText(parts) + ("\"" + rest) == PartText(p) + (PartsText(others) + ("\"" + rest))
    ensures PartsMeaning(parts) + more == [p.c] + (PartsMeaning(others) + more)
  {
    parts := [p] + others;
    assert parts[1..] == others;
  }

  lemma {:induction false} PiecesForms(s: Scan, text: string, v: string) returns (ps: seq<Piece>, t: Trail)
    requires s == PAST || (s == FRESH && text != "" && text[0] != '#' && !IsWhitespace(text[0]))
    requires Closes(s, text) && ParseFrom(NoQuote, false, text) == Value(v)
    ensures Spells(ps, t, text, v)
    decreases |text|
  {
    hide ParseFrom, Closes, Spells;
    if text == "" {
      EmptySpells(v);
      return [], Nothing;
    }
    assert [text[0]] + text[1..] == text;
    OutsideReads(text, v);
    if text[0] == '\'' {
      StepCloses(s, text[0], text[1..]);
      var quoted, others, rest, more;
      quoted, others, t, rest, more := SingleForms(PAST.(quote := Single), text[1..], v);
      ps := [SingleQuoted(quoted)] + others;
      SpellMore(SingleQuoted(quoted), others, t, rest, more);
      assert text == PieceText(SingleQuoted(quoted)) + rest;
    } else if text[0] == '"' {
      StepCloses(s, text[0], text[1..]);
      var parts, others, rest, more;
      parts, others, t, rest, more := DoubleForms(PAST.(quote := Double), text[1..], v);
      ps := [DoubleQuoted(parts)] + others;
      SpellMore(DoubleQuoted(parts), others, t, rest, more);
      assert text == PieceText(DoubleQuoted(parts)) + rest;
    } else if IsBlank(text[0]) {
      t := TrailForms(text);
      ps := [];
      TrailSpells(t, text, v);
    } else {
      ps, t := BareForms(s, text, v);
    }
  }

  lemma {:induction false} BareForms(s: Scan, text: string, v: string) returns (ps: seq<Piece>, t: Trail)
    requires s == PAST || (s == FRESH && text != "" && text[0] != '#' && !IsWhitespace(text[0]))
    requires Closes(s, text) && ParseFrom(NoQuote, false, text) == Value(v)
    requires text != "" && text[0] !in {'\'', '"'} && !IsBlank(text[0])
    ensures Spells(ps, t, text, v)
    decreases |text|, 0
  {
    hide ParseFrom, Closes, Spells;
    assert [text[0]] + text[1..] == text;
    var p, n;
    if text[0] == '\\' {
      EscapeReads(NoQuote, text, v);
      EscapeCloses(s, text[1], text[2..]);
      p, n := Esc(text[1], v[0]), 2;
    } else {
      OutsideReads(text, v);
      if text[0] == '\n' {
        BreakCloses(s, text[1..]);
        assert false;
      }
      StepCloses(s, text[0], text[1..]);
      p, n := Raw(text[0]), 1;
    }
    var others;
    others, t := PiecesForms(PAST, text[n..], v[1..]);
    ps := [Bare(p)] + others;
    SpellMore(Bare(p), others, t, text[n..], v[1..]);
    assert text == PieceText(Bare(p)) + text[n..];
  }

  lemma EmptySpells(v: string)
    requires ParseFrom(NoQuote, false, "") == Value(v)
    ensures Spells([], Nothing, "", v)
  {
  }

  lemma TrailSpells(t: Trail, text: string, v: string)
    requires IsTrail(t) && text == TrailText(t) && v == ""
    ensures Spells([], t, text, v)
  {
  }

  lemma SpelledFirst(ps: seq<Piece>, t: Trail, text: string, v: string)
    requires Spells(ps, t, text, v) && text != "" && text[0] != '#' && !IsWhitespace(text[0])
    ensures IsValue(ps, t)
  {
    if ps != [] {
      var p := PieceText(ps[0]);
      assert p != "" && text[0] == p[0];
    }
  }

  /** Text that the scanner ends and the decoder accepts is a written value. */
  lemma ValueForms(text: string, v: string) returns (ps: seq<Piece>, t: Trail)
    requires text != "" ==> !IsWhitespace(text[0])
    requires Closes(FRESH, text) && ParseValue(text) == Value(v)
    ensures IsValue(ps, t) && text == Spelling(ps, t) && v == Meaning(ps)
  {
    hide ParseFrom, Closes, IsTrail;
    if text == "" {
      return [], Nothing;
    } else if text[0] == '#' {
      CommentOneLine(text);
      assert text == "#" + text[1..];
      return [], Comment("", text[1..]);
    } else {
      ps, t := PiecesForms(FRESH, text, v);
      SpelledFirst(ps, t, text, v);
    }
  }

  lemma CommentOneLine(text: string)
    requires Closes(FRESH, text) && text != "" && text[0] == '#'
    ensures '\n' !in text
  {
    var lines := Split(text);
    SplitFirst(text);
    assert ScanStep(FRESH, text[0]) == None;
    assert ScanLine(FRESH, lines[0]).1;
    assert |lines| == 1;
    SplitNoBreak(text);
  }

  // ----- writing a file

  datatype Item =
    | BlankLine(blanks: string)
    | CommentLine(indent: string, text: string)
    | Assign(indent: string, prefix: Option<string>, key: string, gap: string, lead: string, ps: seq<Piece>,
             trail: Trail)

  /** What stands before the key. */
  function Before(item: Item): string
    requires item.Assign?
  {
    item.indent + if item.prefix.Some? then "export" + item.prefix.value else ""
  }

  function Head(item: Item): string
    requires item.Assign?
  {
    Before(item) + item.key + item.gap
  }

  function ItemText(item: Item): string {
    match item
    case BlankLine(blanks) => blanks
    case CommentLine(indent, text) => indent + "#" + text
    case Assign(_, _, _, _, lead, ps, trail) => Head(item) + "=" + lead + Spelling(ps, trail)
  }

  /** Whitespace that stays on its line. */
  ghost predicate OnlySpace(s: string) {
    forall i :: 0 <= i < |s| ==> IsWhitespace(s[i]) && s[i] != '\n'
  }

  /** A key has no `=`, no line break and no whitespace around it.  Without `export` it must not
      read as a comment or as that word followed by whitespace. */
  ghost predicate IsKey(key: string, gap: string, exported: bool) {
    && '=' !in key && '\n' !in key && OnlySpace(gap)
    && (if key == "" then gap == "" else !IsWhitespace(key[0]) && !IsWhitespace(key[|key| - 1]))
    && (!exported ==>
          && (key != "" ==> key[0] != '#')
          && !(|key| > 6 && key[..6] == "export" && IsWhitespace(key[6]))
          && (key == "export" ==> gap == ""))
  }

  ghost predicate IsItem(item: Item) {
    match item
    case BlankLine(blanks) => OnlySpace(blanks)
    case CommentLine(indent, text) => OnlySpace(indent) && '\n' !in text
    case Assign(indent, prefix, key, gap, lead, ps, trail) =>
      && OnlySpace(indent) && (prefix.Some? ==> prefix.value != "" && OnlySpace(prefix.value))
      && IsKey(key, gap, prefix.Some?) && OnlySpace(lead) && IsValue(ps, trail)
  }

  /** Items, with a line break between any two. */
  function FileText(items: seq<Item>): string
    requires items != []
  {
    if |items| == 1 then ItemText(items[0]) else ItemText(items[0]) + "\n" + FileText(items[1..])
  }

  function Written(items: seq<Item>): Entries {
    if items == [] then []
    else (if items[0].Assign? then [(items[0].key, Meaning(items[0].ps))] else []) + Written(items[1..])
  }

  ghost predicate AreItems(validate: NameRule, items: seq<Item>) {
    forall i :: 0 <= i < |items| ==> IsItem(items[i]) && (items[i].Assign? ==> validate(items[i].key).None?)
  }

  // ----- line ends

  /** The text without the carriage return that may stand before each line break and at the end. */
  function Unix(s: string): string {
    if s == "" || s == "\r" then ""
    else if |s| >= 2 && s[0] == '\r' && s[1] == '\n' then "\n" + Unix(s[2..])
    else [s[0]] + Unix(s[1..])
  }

  /** `plain` are `lines` without their carriage returns. */
  ghost predicate Stripped(lines: seq<string>, plain: seq<string>) {
    |lines| == |plain| && forall i :: 0 <= i < |lines| ==> StripCr(lines[i]) == plain[i]
  }

  lemma {:induction false} UnixLines(s: string)
    ensures Stripped(Split(s), Split(Unix(s)))
    decreases |s|
  {
    if s == "" || s == "\r" {
      if s == "\r" {
        assert s[1..] == "";
        assert Split(s) == [[s[0]] + Split("")[0]] + Split("")[1..];
      }
    } else if |s| >= 2 && s[0] == '\r' && s[1] == '\n' {
      UnixLines(s[2..]);
      CrLfLines(s);
      assert Unix(s)[1..] == Unix(s[2..]);
    } else if s[0] == '\n' {
      UnixLines(s[1..]);
      assert Unix(s)[1..] == Unix(s[1..]);
    } else {
      UnixLines(s[1..]);
      UnixLine(s);
    }
  }

  lemma SplitStep(c: char, text: string)
    ensures Split([c] + text) ==
              if c == '\n' then [""] + Split(text) else [[c] + Split(text)[0]] + Split(text)[1..]
  {
    assert ([c] + text)[1..] == text;
  }

  lemma CrLfLines(s: string)
    requires |s| >= 2 && s[0] == '\r' && s[1] == '\n'
    ensures Split(s) == ["\r"] + Split(s[2..])
  {
    hide Split;
    SplitStep(s[1], s[2..]);
    SplitStep(s[0], s[1..]);
    assert s[1..] == [s[1]] + s[2..];
    assert s == [s[0]] + s[1..];
    assert ([""] + Split(s[2..]))[1..] == Split(s[2..]);
    assert ['\r'] + "" == "\r";
  }

  lemma UnixLine(s: string)
    requires s != "" && s != "\r" && s[0] != '\n' && !(|s| >= 2 && s[0] == '\r' && s[1] == '\n')
    requires Stripped(Split(s[1..]), Split(Unix(s[1..])))
    ensures Stripped(Split(s), Split(Unix(s)))
  {
    hide Unix, Split, StripCr, Stripped;
    UnixStep(s);
    FirstLines(Split(s[1..]), Split(Unix(s[1..])));
    SplitStep(s[0], s[1..]);
    SplitStep(s[0], Unix(s[1..]));
    assert s == [s[0]] + s[1..];
    FirstStripped(s);
    var lines, plain := Split(s[1..]), Split(Unix(s[1..]));
    StrippedMore(lines, plain, [s[0]] + lines[0], [s[0]] + plain[0]);
  }

  lemma StrippedMore(lines: seq<string>, plain: seq<string>, line: string, text: string)
    requires Stripped(lines, plain) && lines != [] && StripCr(line) == text
    ensures Stripped([line] + lines[1..], [text] + plain[1..])
  {
    hide StripCr;
  }

  lemma FirstLines(lines: seq<string>, plain: seq<string>)
    requires Stripped(lines, plain)
    ensures |lines| == |plain| && (lines != [] ==> StripCr(lines[0]) == plain[0])
  {
  }

  lemma UnixStep(s: string)
    requires s != "" && s != "\r" && !(|s| >= 2 && s[0] == '\r' && s[1] == '\n')
    ensures Unix(s) == [s[0]] + Unix(s[1..])
  {
  }

  lemma FirstStripped(s: string)
    requires s != "" && s != "\r" && s[0] != '\n' && !(|s| >= 2 && s[0] == '\r' && s[1] == '\n')
    ensures StripCr([s[0]] + Split(s[1..])[0]) == [s[0]] + StripCr(Split(s[1..])[0])
  {
    hide Split;
    var line := Split(s[1..])[0];
    if line == "" {
      NoFirstLine(s[1..]);
      assert |s| > 1 ==> s[1..][0] == s[1];
      assert |s| == 1 ==> s == [s[0]];
      assert [s[0]] + line == [s[0]];
    } else {
      LongerStripped(s[0], line);
    }
  }

  lemma NoFirstLine(text: string)
    requires Split(text)[0] == ""
    ensures text == "" || text[0] == '\n'
  {
  }

  lemma LongerStripped(c: char, line: string)
    requires line != ""
    ensures StripCr([c] + line) == [c] + StripCr(line)
  {
    var whole := [c] + line;
    assert whole[|whole| - 1] == line[|line| - 1];
  }

  // ----- lines of a file

  lemma {:induction false} SplitBreak(a: string, b: string)
    ensures Split(a + "\n" + b) == Split(a) + Split(b)
    decreases a
  {
    hide Split;
    if a == "" {
      SplitStep('\n', b);
      SplitOneLine(a);
      assert a + "\n" + b == ['\n'] + b;
    } else {
      SplitBreak(a[1..], b);
      SplitStep(a[0], a[1..] + "\n" + b);
      SplitStep(a[0], a[1..]);
      assert a == [a[0]] + a[1..];
      assert a + "\n" + b == [a[0]] + (a[1..] + "\n" + b);
      LongerFirst(a[0], Split(a[1..]), Split(b));
    }
  }

  lemma LongerFirst(c: char, front: seq<string>, back: seq<string>)
    requires front != []
    ensures [[c] + (front + back)[0]] + (front + back)[1..] == [[c] + front[0]] + front[1..] + back
    ensures [""] + (front + back) == [""] + front + back
  {
  }

  lemma {:induction false} SplitFront(head: string, text: string)
    requires '\n' !in head
    ensures Split(head + text) == [head + Split(text)[0]] + Split(text)[1..]
  {
    hide Split;
    var first := Split(text)[0];
    if head == "" {
      assert head + text == text;
      assert head + first == first;
      assert [first] + Split(text)[1..] == Split(text);
    } else {
      SplitFront(head[1..], text);
      SplitStep(head[0], head[1..] + text);
      FrontOf(head, text);
      FrontOf(head, first);
      var rest := [head[1..] + first] + Split(text)[1..];
      assert rest[0] == head[1..] + first && rest[1..] == Split(text)[1..];
    }
  }

  lemma FrontOf(head: string, text: string)
    requires head != ""
    ensures head + text == [head[0]] + (head[1..] + text)
  {
  }

  lemma {:induction false} JoinSplit(text: string)
    ensures Join(Split(text)) == text
  {
    if text != "" {
      JoinSplit(text[1..]);
      var rest := Split(text[1..]);
      assert text == [text[0]] + text[1..];
      if text[0] == '\n' {
        assert ([""] + rest)[1..] == rest;
      } else {
        var lines := [[text[0]] + rest[0]] + rest[1..];
        assert lines[1..] == rest[1..];
      }
    }
  }

  // ----- trimming

  lemma {:induction false} TrimSpace(space: string, text: string)
    requires OnlySpace(space)
    ensures TrimStart(space + text) == TrimStart(text)
  {
    if space == "" {
      assert space + text == text;
    } else {
      assert (space + text)[1..] == space[1..] + text;
      TrimSpace(space[1..], text);
    }
  }

  lemma TrimNothing(text: string)
    requires text == "" || !IsWhitespace(text[0])
    ensures TrimStart(text) == text
  {
  }

  lemma {:induction false} TrimEndSpace(text: string, space: string)
    requires OnlySpace(space) && (text == "" || !IsWhitespace(text[|text| - 1]))
    ensures TrimEnd(text + space) == text
    decreases space
  {
    if space == "" {
      assert text + space == text;
    } else {
      var n := |space| - 1;
      assert (text + space)[..|text + space| - 1] == text + space[..n];
      TrimEndSpace(text, space[..n]);
    }
  }

  // ----- a written assignment

  /** What the two splits of a line do with `item` written before `text`. */
  lemma HeadSplits(item: Item, text: string)
    requires item.Assign? && IsItem(item) && (text == "" || !IsWhitespace(text[0]))
    ensures var line := Head(item) + "=" + item.lead + text;
            && Equals(line) == |Head(item)| < |line| && TrimStart(line[Equals(line) + 1..]) == text
            && TrimStart(line) != "" && TrimStart(line)[0] != '#'
  {
    hide Equals, TrimStart;
    var head := Head(item);
    var line := head + "=" + item.lead + text;
    HeadPlain(item);
    assert line[..|head|] == head;
    EqualsUnique(line, |head|);
    assert line[|head| + 1..] == item.lead + text;
    TrimSpace(item.lead, text);
    TrimNothing(text);
    Trimmed(item, "=" + item.lead + text);
    assert line == Head(item) + ("=" + item.lead + text);
  }

  lemma HeadPlain(item: Item)
    requires item.Assign? && IsItem(item)
    ensures '=' !in Head(item) && '\n' !in Head(item)
  {
    assert '=' !in "export" && '\n' !in "export";
  }

  /** The line without its indentation. */
  function Unindented(item: Item, rest: string): string
    requires item.Assign?
  {
    (if item.prefix.Some? then "export" + item.prefix.value else "") + item.key + item.gap + rest
  }

  lemma Trimmed(item: Item, rest: string)
    requires item.Assign? && IsItem(item) && rest != "" && rest[0] == '='
    ensures var line := Unindented(item, rest);
            TrimStart(Head(item) + rest) == line && line != "" && line[0] != '#'
  {
    var line := Unindented(item, rest);
    assert Head(item) + rest == item.indent + line;
    TrimSpace(item.indent, line);
    if item.prefix.Some? {
      assert line[0] == 'e';
    } else if item.key != "" {
      assert line[0] == item.key[0];
    } else {
      assert line == rest;
    }
    TrimNothing(line);
  }

  lemma AssignmentOf(item: Item, rest: string)
    requires item.Assign? && IsItem(item) && rest != "" && rest[0] == '='
    ensures Assignment(Head(item) + rest) == item.key + item.gap + rest
  {
    hide TrimStart;
    var line := Unindented(item, rest);
    var bare := item.key + item.gap + rest;
    Trimmed(item, rest);
    if item.prefix.Some? {
      assert line == "export" + (item.prefix.value + bare);
      assert line[..6] == "export" && line[6] == item.prefix.value[0];
      assert line[6..] == item.prefix.value + bare;
      TrimSpace(item.prefix.value, bare);
      if item.key != "" {
        assert bare[0] == item.key[0];
      } else {
        assert bare == rest;
      }
      TrimNothing(bare);
    } else {
      assert line == bare;
      NoPrefix(item.key, item.gap, rest);
    }
  }

  lemma NoPrefix(key: string, gap: string, rest: string)
    requires IsKey(key, gap, false) && rest != "" && rest[0] == '='
    ensures var line := key + gap + rest;
            !(StartsWith(line, "export") && |line| > 6 && IsWhitespace(line[6]))
  {
    var line := key + gap + rest;
    if StartsWith(line, "export") && |line| > 6 {
      PrefixHasNoEquals(line);
      assert line[|key| + |gap|] == '=';
      assert |key| + |gap| >= 6;
      assert forall i :: 0 <= i < 6 ==> !IsWhitespace(line[i]) by {
        PrefixSolid(line);
      }
      assert gap != "" ==> line[|key|] == gap[0];
      assert |key| >= 6;
      assert key[..6] == line[..6];
      if |key| > 6 {
        assert key[6] == line[6];
      } else {
        assert key == key[..6];
        assert line[6] == '=';
      }
    }
  }

  lemma PrefixSolid(a: string)
    requires StartsWith(a, "export")
    ensures forall i :: 0 <= i < 6 ==> !IsWhitespace(a[i])
  {
    forall i | 0 <= i < 6
      ensures !IsWhitespace(a[i])
    {
      assert a[i] == a[..6][i];
    }
  }

  /** A written assignment parses to its key and what its pieces stand for. */
  lemma AssignParses(validate: NameRule, n: nat, item: Item)
    requires item.Assign? && IsItem(item)
    ensures ParseLine(validate, n, ItemText(item)) ==
              if validate(item.key).Some? then Err(InvalidName(n, item.key, validate(item.key).value))
              else Ok(Entry(item.key, Meaning(item.ps)))
  {
    hide Equals, TrimStart, Assignment, ParseValue, Spelling, Head, Meaning, IsValue, IsKey;
    var v := Spelling(item.ps, item.trail);
    var rest := "=" + item.lead + v;
    ValueReads(item.ps, item.trail);
    assert ItemText(item) == Head(item) + rest;
    HeadSplits(item, v);
    AssignmentOf(item, rest);
    var e := |item.key| + |item.gap|;
    var a := item.key + item.gap + rest;
    KeySplits(item, rest);
    assert a[..e] == item.key + item.gap;
    assert a[e + 1..] == item.lead + v;
    TrimSpace(item.lead, v);
    TrimNothing(v);
  }

  lemma KeySplits(item: Item, rest: string)
    requires item.Assign? && IsItem(item) && rest != "" && rest[0] == '='
    ensures Equals(item.key + item.gap + rest) == |item.key| + |item.gap| && Trim(item.key + item.gap) == item.key
  {
    hide Equals;
    var front := item.key + item.gap;
    assert (front + rest)[..|front|] == front;
    EqualsUnique(front + rest, |front|);
    TrimNothing(front);
    TrimEndSpace(item.key, item.gap);
  }

  // ----- the lines of an item

  lemma GroupStep(first: string, rest: seq<string>, index: nat, pending: Option<Pending>)
    ensures var physical := StripCr(first);
            Group([first] + rest, index, pending) ==
              match pending
              case None =>
                var trimmed := TrimStart(physical);
                var e := Equals(physical);
                if trimmed == "" || trimmed[0] == '#' then Group(rest, index + 1, None)
                else if e == |physical| then [Fault(index + 1)]
                else
                  var (scan, done) := ScanLine(FRESH, TrimStart(physical[e + 1..]));
                  if done then [Record(index + 1, physical)] + Group(rest, index + 1, None)
                  else Group(rest, index + 1, Some(Pending(physical, index + 1, scan)))
              case Some(p) =>
                var logical := p.logical + "\n" + physical;
                var (scan, done) := ScanLine(p.scan, physical);
                if done then [Record(p.start, logical)] + Group(rest, index + 1, None)
                else Group(rest, index + 1, Some(Pending(logical, p.start, scan)))
  {
    hide ScanLine, Equals, TrimStart, StripCr;
    assert ([first] + rest)[1..] == rest;
  }

  /** The lines that end an open record. */
  lemma {:induction false} GroupOpen(lines: seq<string>, plain: seq<string>, more: seq<string>, index: nat, p: Pending)
    requires plain != [] && Stripped(lines, plain) && RunsOn(p.scan, plain) && LastVerdict(p.scan, plain)
    ensures Group(lines + more, index, Some(p))
         == [Record(p.start, p.logical + "\n" + Join(plain))] + Group(more, index + |plain|, None)
    decreases |plain|
  {
    hide ScanLine, StripCr, Group;
    assert lines + more == [lines[0]] + (lines[1..] + more);
    GroupStep(lines[0], lines[1..] + more, index, Some(p));
    if |plain| == 1 {
      assert lines[1..] + more == more;
    } else {
      var logical := p.logical + "\n" + plain[0];
      GroupOpen(lines[1..], plain[1..], more, index + 1, Pending(logical, p.start, ScanLine(p.scan, plain[0]).0));
      assert logical + "\n" + Join(plain[1..]) == p.logical + "\n" + Join(plain);
    }
  }

  /** A record starting on the first of `lines` and ending on the last. */
  lemma GroupRecord(lines: seq<string>, plain: seq<string>, more: seq<string>, index: nat, input: string)
    requires plain != [] && Stripped(lines, plain)
    requires TrimStart(plain[0]) != "" && TrimStart(plain[0])[0] != '#' && Equals(plain[0]) < |plain[0]|
    requires input == TrimStart(plain[0][Equals(plain[0]) + 1..])
    requires RunsOn(FRESH, [input] + plain[1..]) && LastVerdict(FRESH, [input] + plain[1..])
    ensures Group(lines + more, index, None)
         == [Record(index + 1, Join(plain))] + Group(more, index + |plain|, None)
  {
    hide ScanLine, StripCr, Group, Equals, TrimStart;
    assert lines + more == [lines[0]] + (lines[1..] + more);
    GroupStep(lines[0], lines[1..] + more, index, None);
    assert ([input] + plain[1..])[1..] == plain[1..];
    if |plain| == 1 {
      assert lines[1..] + more == more;
    } else {
      GroupOpen(lines[1..], plain[1..], more, index + 1, Pending(plain[0], index + 1, ScanLine(FRESH, input).0));
    }
  }

  lemma GroupAssign(item: Item, lines: seq<string>, more: seq<string>, index: nat)
    requires item.Assign? && IsItem(item) && Stripped(lines, Split(ItemText(item)))
    ensures Group(lines + more, index, None)
         == [Record(index + 1, ItemText(item))] + Group(more, index + |lines|, None)
  {
    hide Group, Split, Stripped, Equals, TrimStart, Spelling, RunsOn, LastVerdict, Head, IsValue, IsKey;
    var v := Spelling(item.ps, item.trail);
    var values := Split(v);
    var head := Head(item) + "=" + item.lead;
    var plain := Split(ItemText(item));
    ValueReads(item.ps, item.trail);
    HeadPlain(item);
    assert ItemText(item) == head + v;
    SplitFront(head, v);
    FirstOf(v);
    HeadSplits(item, values[0]);
    assert plain[0] == Head(item) + "=" + item.lead + values[0];
    assert [values[0]] + plain[1..] == values;
    GroupRecord(lines, plain, more, index, values[0]);
    JoinSplit(ItemText(item));
    assert |lines| == |plain| by {
      SameCount(lines, plain);
    }
  }

  lemma SameCount(lines: seq<string>, plain: seq<string>)
    requires Stripped(lines, plain)
    ensures |lines| == |plain|
  {
  }

  lemma FirstOf(v: string)
    requires v != "" ==> !IsWhitespace(v[0])
    ensures Split(v)[0] == "" || !IsWhitespace(Split(v)[0][0])
  {
  }

  lemma GroupSkip(item: Item, lines: seq<string>, more: seq<string>, index: nat)
    requires !item.Assign? && IsItem(item) && Stripped(lines, Split(ItemText(item)))
    ensures |lines| == 1 && Group(lines + more, index, None) == Group(more, index + 1, None)
  {
    hide Group, StripCr, Split, TrimStart, Equals;
    var text := ItemText(item);
    SkipText(item);
    SplitOneLine(text);
    assert lines + more == [lines[0]] + more;
    GroupStep(lines[0], more, index, None);
  }

  lemma SkipText(item: Item)
    requires !item.Assign? && IsItem(item)
    ensures var text := ItemText(item); '\n' !in text && (TrimStart(text) == "" || TrimStart(text)[0] == '#')
  {
    match item
    case BlankLine(blanks) =>
      TrimSpace(blanks, "");
      assert blanks + "" == blanks;
    case CommentLine(indent, text) =>
      TrimSpace(indent, "#" + text);
      TrimNothing("#" + text);
      assert ItemText(item) == indent + ("#" + text);
  }

  // ----- the items of a file

  function AllLines(items: seq<Item>): seq<string> {
    if items == [] then [] else Split(ItemText(items[0])) + AllLines(items[1..])
  }

  lemma {:induction false} FileLines(items: seq<Item>)
    requires items != []
    ensures Split(FileText(items)) == AllLines(items)
  {
    hide Split, ItemText;
    if |items| == 1 {
      assert AllLines(items) == Split(ItemText(items[0])) + [];
    } else {
      FileLines(items[1..]);
      SplitBreak(ItemText(items[0]), FileText(items[1..]));
    }
  }

  lemma OneItem(validate: NameRule, max: nat, item: Item, lines: seq<string>, more: seq<string>, index: nat, count: nat)
    requires IsItem(item) && Stripped(lines, Split(ItemText(item)))
    ensures var rest := Group(more, index + |lines|, None);
            Evaluate(validate, max, Group(lines + more, index, None), count) ==
              if !item.Assign? then Evaluate(validate, max, rest, count)
              else if validate(item.key).Some?
              then Err(InvalidName(index + 1, item.key, validate(item.key).value))
              else if count == max then Err(AssignmentLimit)
              else Prepend((item.key, Meaning(item.ps)), Evaluate(validate, max, rest, count + 1))
  {
    hide Group, Split, ItemText, Stripped, IsItem, ParseLine;
    var rest := Group(more, index + |lines|, None);
    if item.Assign? {
      GroupAssign(item, lines, more, index);
      AssignParses(validate, index + 1, item);
      assert ([Record(index + 1, ItemText(item))] + rest)[1..] == rest;
    } else {
      GroupSkip(item, lines, more, index);
    }
  }

  /** What remains to be read after `items`. */
  ghost function Onward(validate: NameRule, max: nat, items: seq<Item>, more: seq<string>, index: nat, count: nat)
    : Result<Entries, DotenvError>
  {
    if count + |Written(items)| > max then Err(AssignmentLimit)
    else Joined(Written(items), Evaluate(validate, max, Group(more, index, None), count + |Written(items)|))
  }

  lemma OnwardStep(validate: NameRule, max: nat, items: seq<Item>, more: seq<string>, index: nat, count: nat)
    requires items != [] && count <= max
    ensures Onward(validate, max, items, more, index, count) ==
              if !items[0].Assign? then Onward(validate, max, items[1..], more, index, count)
              else if count == max then Err(AssignmentLimit)
              else
                var rest := Onward(validate, max, items[1..], more, index, count + 1);
                Prepend((items[0].key, Meaning(items[0].ps)), rest)
  {
    hide Evaluate, Group, Meaning;
    var rest := Written(items[1..]);
    if items[0].Assign? {
      var entry := (items[0].key, Meaning(items[0].ps));
      assert Written(items) == [entry] + rest;
      if count + |Written(items)| <= max {
        var last := Evaluate(validate, max, Group(more, index, None), count + |Written(items)|);
        if last.Ok? {
          assert [entry] + rest + last.value == [entry] + (rest + last.value);
        }
      }
    } else {
      assert Written(items) == [] + rest == rest;
    }
  }

  lemma {:induction false} ReadOn(validate: NameRule, max: nat, items: seq<Item>, lines: seq<string>, more: seq<string>,
                                  index: nat, count: nat)
    requires AreItems(validate, items) && Stripped(lines, AllLines(items)) && count <= max
    ensures Evaluate(validate, max, Group(lines + more, index, None), count)
         == Onward(validate, max, items, more, index + |lines|, count)
    decreases |items|
  {
    hide Group, Split, ItemText, IsItem, Evaluate;
    if items == [] {
      assert lines + more == more;
      JoinedNothing(Evaluate(validate, max, Group(more, index, None), count));
    } else {
      hide Onward;
      var k := |Split(ItemText(items[0]))|;
      var first, rest := lines[..k], lines[k..];
      assert lines + more == first + (rest + more);
      StrippedParts(lines, Split(ItemText(items[0])), AllLines(items[1..]));
      OneItem(validate, max, items[0], first, rest + more, index, count);
      OnwardStep(validate, max, items, more, index + |lines|, count);
      if !items[0].Assign? {
        ReadOn(validate, max, items[1..], rest, more, index + k, count);
      } else if count < max {
        ReadOn(validate, max, items[1..], rest, more, index + k, count + 1);
      }
    }
  }

  lemma StrippedParts(lines: seq<string>, a: seq<string>, b: seq<string>)
    requires Stripped(lines, a + b)
    ensures Stripped(lines[..|a|], a) && Stripped(lines[|a|..], b)
  {
    hide StripCr;
    forall i | 0 <= i < |b|
      ensures StripCr(lines[|a|..][i]) == b[i]
    {
      assert lines[|a|..][i] == lines[|a| + i];
      assert (a + b)[|a| + i] == b[i];
    }
    forall i | 0 <= i < |a|
      ensures StripCr(lines[..|a|][i]) == a[i]
    {
      assert (a + b)[i] == a[i];
    }
  }

  /** Every way of writing assignments reads back as those assignments: whatever the line ends, the
      indentation, the `export` prefixes, the quoting, the escapes, the comments and the blank lines. */
  lemma WrittenReadsBack(items: seq<Item>, source: string, validate: NameRule, max: nat)
    requires items != [] && AreItems(validate, items) && Unix(source) == FileText(items)
    ensures ParseAll(source, validate, max)
         == if |Written(items)| <= max then Ok(Written(items)) else Err(AssignmentLimit)
  {
    hide Group, Split, AreItems;
    UnixLines(source);
    FileLines(items);
    var lines := Split(source);
    ReadOn(validate, max, items, lines, [], 0, 0);
    assert lines + [] == lines;
    NoLines(validate, max, |lines|, |Written(items)|);
    assert Written(items) + [] == Written(items);
  }

  lemma NoLines(validate: NameRule, max: nat, index: nat, count: nat)
    ensures Evaluate(validate, max, Group([], index, None), count) == Ok([])
  {
  }

  // ----- and nothing else is accepted

  ghost predicate NoBreaks(lines: seq<string>) {
    forall i :: 0 <= i < |lines| ==> '\n' !in lines[i]
  }

  lemma {:induction false} SplitHasNone(text: string)
    ensures NoBreaks(Split(text))
  {
    if text != "" {
      SplitHasNone(text[1..]);
    }
  }

  lemma {:induction false} SplitJoin(lines: seq<string>)
    requires lines != [] && NoBreaks(lines)
    ensures Split(Join(lines)) == lines
  {
    hide Split;
    SplitOneLine(lines[0]);
    if |lines| > 1 {
      SplitJoin(lines[1..]);
      SplitBreak(lines[0], Join(lines[1..]));
      assert [lines[0]] + lines[1..] == lines;
    } else {
      assert lines == [lines[0]];
    }
  }

  /** Where a string begins with whitespace that stays on its line. */
  lemma Indentation(s: string) returns (space: string)
    requires '\n' !in s
    ensures s == space + TrimStart(s) && OnlySpace(space) && (TrimStart(s) != "" ==> !IsWhitespace(TrimStart(s)[0]))
  {
    TrimStartFacts(s);
    space := s[..|s| - |TrimStart(s)|];
  }

  lemma {:induction false} TrimEndFacts(s: string)
    ensures forall i :: |TrimEnd(s)| <= i < |s| ==> IsWhitespace(s[i])
    ensures TrimEnd(s) != "" ==> !IsWhitespace(s[|TrimEnd(s)| - 1])
  {
    if s != "" && IsWhitespace(s[|s| - 1]) {
      hide IsWhitespace;
      TrimEndFacts(s[..|s| - 1]);
    }
  }

  lemma Ending(s: string) returns (space: string)
    requires '\n' !in s
    ensures s == TrimEnd(s) + space && OnlySpace(space)
    ensures TrimEnd(s) != "" ==> !IsWhitespace(TrimEnd(s)[|TrimEnd(s)| - 1])
  {
    hide IsWhitespace;
    TrimEndFacts(s);
    space := s[|TrimEnd(s)|..];
  }

  /** The text before `=` is a key with what stands around it. */
  lemma KeyForms(front: string, rest: string, exported: bool) returns (key: string, gap: string)
    requires '=' !in front && '\n' !in front && rest != "" && rest[0] == '='
    requires front != "" ==> !IsWhitespace(front[0])
    requires !exported ==>
               && (front != "" ==> front[0] != '#')
               && !(StartsWith(front + rest, "export") && |front + rest| > 6 && IsWhitespace((front + rest)[6]))
    ensures front == key + gap && key == Trim(front) && IsKey(key, gap, exported)
  {
    TrimNothing(front);
    gap := Ending(front);
    key := TrimEnd(front);
    FrontStays(key, gap);
    if !exported {
      var line := front + rest;
      assert |key| >= 6 ==> key[..6] == line[..6];
      assert |key| > 6 ==> key[6] == line[6];
      assert |key| == 6 && gap != "" ==> line[6] == gap[0];
      assert |key| == 6 ==> key == key[..6];
    }
  }

  lemma FrontStays(key: string, gap: string)
    requires OnlySpace(gap) && (key + gap != "" ==> !IsWhitespace((key + gap)[0]))
    ensures key == "" ==> gap == ""
  {
    assert key == "" ==> key + gap == gap;
  }

  ghost predicate IsExport(a: string) {
    StartsWith(a, "export") && |a| > 6 && IsWhitespace(a[6])
  }

  lemma {:induction false} FrontTrims(front: string, rest: string)
    requires rest != "" && !IsWhitespace(rest[0])
    ensures TrimStart(front + rest) == TrimStart(front) + rest
  {
    if front == "" {
      assert front + rest == rest;
    } else if IsWhitespace(front[0]) {
      assert (front + rest)[1..] == front[1..] + rest;
      FrontTrims(front[1..], rest);
    }
  }

  /** The word and the blank after it both stand before the `=`. */
  lemma ExportInFront(front: string, rest: string)
    requires rest != "" && rest[0] == '=' && IsExport(front + rest)
    ensures |front| > 6 && front == "export" + front[6..] && IsWhitespace(front[6])
  {
    var a := front + rest;
    PrefixHasNoEquals(a);
    assert a[|front|] == '=';
    assert |front| > 6;
    assert front[..6] == a[..6];
  }

  lemma AssignmentAt(a: string, front: string, rest: string)
    requires a == front + rest && '=' !in front && rest != "" && rest[0] == '='
    ensures Equals(a) == |front| < |a| && a[..Equals(a)] == front && a[Equals(a) + 1..] == rest[1..]
  {
    hide Equals;
    assert a[..|front|] == front;
    EqualsUnique(a, |front|);
  }

  /** What stands before the first `=` of a line that is no comment. */
  lemma HeadForms(front: string, rest: string)
    returns (indent: string, prefix: Option<string>, key: string, gap: string)
    requires '=' !in front && '\n' !in front && rest != "" && rest[0] == '='
    requires TrimStart(front + rest) != "" && TrimStart(front + rest)[0] != '#'
    ensures OnlySpace(indent) && (prefix.Some? ==> prefix.value != "" && OnlySpace(prefix.value))
    ensures IsKey(key, gap, prefix.Some?)
    ensures front == indent + (if prefix.Some? then "export" + prefix.value else "") + key + gap
    ensures '=' !in key + gap && Trim(key + gap) == key && Assignment(front + rest) == key + gap + rest
  {
    hide IsKey, TrimStart, Trim;
    FrontTrims(front, rest);
    indent := Indentation(front);
    var bare := TrimStart(front);
    if IsExport(bare + rest) {
      ExportInFront(bare, rest);
      var after := bare[6..];
      assert (bare + rest)[6..] == after + rest;
      FrontTrims(after, rest);
      var space := Indentation(after);
      prefix := Some(space);
      assert '=' !in TrimStart(after) && '\n' !in TrimStart(after);
      key, gap := KeyForms(TrimStart(after), rest, true);
      assert "export" + space + (key + gap) == bare;
      assert indent + ("export" + space) + key + gap == front;
    } else {
      prefix := None;
      assert bare != "" ==> (bare + rest)[0] == bare[0];
      key, gap := KeyForms(bare, rest, false);
      assert indent + "" + key + gap == front;
    }
  }

  /** The value lines of a finished record. */
  lemma LinesClose(first: string, more: seq<string>, text: string)
    requires NoBreaks([first] + more) && RunsOn(FRESH, [first] + more) && LastVerdict(FRESH, [first] + more)
    requires first != "" ==> !IsWhitespace(first[0])
    requires text == first + if more == [] then "" else "\n" + Join(more)
    ensures Closes(FRESH, text) && (text != "" ==> !IsWhitespace(text[0]))
  {
    JoinFront(first, more);
    SplitJoin([first] + more);
    if first == "" {
      assert ([first] + more)[0] == "";
      assert more == [];
    }
  }

  lemma TextForms(validate: NameRule, n: nat, front: string, lead: string, text: string) returns (item: Item)
    requires '=' !in front && '\n' !in front && OnlySpace(lead)
    requires Closes(FRESH, text) && (text != "" ==> !IsWhitespace(text[0]))
    requires var line := front + ("=" + lead + text);
             && TrimStart(line) != "" && TrimStart(line)[0] != '#'
             && ParseLine(validate, n, line).Ok? && ParseLine(validate, n, line).value.Entry?
    ensures item.Assign? && IsItem(item) && ItemText(item) == front + ("=" + lead + text)
    ensures validate(item.key).None?
  {
    hide TrimStart, ParseValue, IsKey, IsValue, Assignment, Spelling, Closes, Trim, ParseLine;
    var rest := "=" + lead + text;
    var indent, prefix, key, gap := HeadForms(front, rest);
    EntryHasValue(validate, n, front + rest, key, gap, lead, text);
    var ps, trail := ValueForms(text, ParseValue(text).text);
    item := Assign(indent, prefix, key, gap, lead, ps, trail);
    assert Head(item) == front;
  }

  lemma EntryHasValue(validate: NameRule, n: nat, line: string, key: string, gap: string, lead: string, text: string)
    requires Assignment(line) == key + gap + ("=" + lead + text) && Trim(key + gap) == key && '=' !in key + gap
    requires OnlySpace(lead) && (text != "" ==> !IsWhitespace(text[0]))
    requires ParseLine(validate, n, line).Ok? && ParseLine(validate, n, line).value.Entry?
    ensures validate(key).None? && ParseValue(text).Value?
  {
    hide Equals, TrimStart, ParseValue, Assignment, Trim;
    var rest := "=" + lead + text;
    AssignmentAt(Assignment(line), key + gap, rest);
    assert rest[1..] == lead + text;
    TrimSpace(lead, text);
    TrimNothing(text);
  }

  /** A finished record that parses is a written assignment. */
  lemma RecordForms(validate: NameRule, n: nat, physical: string, more: seq<string>) returns (item: Item)
    requires NoBreaks([physical] + more)
    requires TrimStart(physical) != "" && TrimStart(physical)[0] != '#' && Equals(physical) < |physical|
    requires var values := [TrimStart(physical[Equals(physical) + 1..])] + more;
             RunsOn(FRESH, values) && LastVerdict(FRESH, values)
    requires var parsed := ParseLine(validate, n, Join([physical] + more)); parsed.Ok? && parsed.value.Entry?
    ensures item.Assign? && IsItem(item) && ItemText(item) == Join([physical] + more)
    ensures validate(item.key).None?
  {
    hide Equals, TrimStart, RunsOn, LastVerdict, ParseLine, Join, Closes, IsItem, ItemText;
    var e := Equals(physical);
    var front, input := physical[..e], physical[e + 1..];
    var tail := if more == [] then "" else "\n" + Join(more);
    EqualsFacts(physical);
    JoinFront(physical, more);
    assert ([physical] + more)[0] == physical;
    TrimStartAppend(physical, tail);
    var lead := Indentation(input);
    var text := TrimStart(input) + tail;
    assert '\n' !in TrimStart(input);
    SameBreaks(physical, TrimStart(input), more);
    LinesClose(TrimStart(input), more, text);
    assert physical + tail == front + ("=" + lead + text);
    item := TextForms(validate, n, front, lead, text);
  }

  lemma SameBreaks(a: string, b: string, more: seq<string>)
    requires NoBreaks([a] + more) && '\n' !in b
    ensures NoBreaks([b] + more)
  {
    forall i | 0 < i < |[b] + more|
      ensures '\n' !in ([b] + more)[i]
    {
      assert ([b] + more)[i] == ([a] + more)[i];
    }
  }

  // ----- a record that never ends

  lemma {:induction false} FindClose(s: Scan, plain: seq<string>) returns (k: nat, t: Scan)
    ensures k <= |plain| && (k > 0 ==> RunsOn(s, plain[..k]) && LastVerdict(s, plain[..k]))
    ensures k == 0 ==> AllOpen(s, plain, t)
    decreases |plain|
  {
    hide ScanLine;
    if plain == [] {
      return 0, s;
    }
    var (next, done) := ScanLine(s, plain[0]);
    if done {
      assert plain[..1] == [plain[0]];
      return 1, s;
    }
    k, t := FindClose(next, plain[1..]);
    if k > 0 {
      assert plain[..k + 1][1..] == plain[1..][..k];
      k := k + 1;
    }
  }

  lemma {:induction false} GroupNever(lines: seq<string>, plain: seq<string>, index: nat, p: Pending, t: Scan)
    requires Stripped(lines, plain) && AllOpen(p.scan, plain, t)
    ensures Group(lines, index, Some(p)) == [Fault(p.start)]
    decreases |plain|
  {
    hide ScanLine, StripCr;
    if plain != [] {
      hide Group;
      assert lines == [lines[0]] + lines[1..];
      GroupStep(lines[0], lines[1..], index, Some(p));
      var next := ScanLine(p.scan, plain[0]).0;
      GroupNever(lines[1..], plain[1..], index + 1, Pending(p.logical + "\n" + plain[0], p.start, next), t);
    }
  }

  /** An error about line `n`: bad syntax, or a name the rule refuses. */
  ghost predicate FaultAt(validate: NameRule, r: Result<Entries, DotenvError>, n: nat) {
    && r.Err?
    && (r.error == Syntax(n)
        || (r.error.InvalidName? && r.error.line == n && validate(r.error.name) == Some(r.error.reason)))
  }

  ghost predicate FaultyFrom(validate: NameRule, lines: seq<string>, index: nat) {
    forall max, count ::
      FaultAt(validate, Evaluate(validate, max, Group(lines, index, None), count), index + 1)
  }

  lemma FaultFirst(validate: NameRule, lines: seq<string>, index: nat)
    requires Group(lines, index, None) == [Fault(index + 1)]
    ensures FaultyFrom(validate, lines, index)
  {
    hide Group;
  }

  lemma BadRecordFirst(validate: NameRule, lines: seq<string>, index: nat, logical: string, more: seq<Event>)
    requires Group(lines, index, None) == [Record(index + 1, logical)] + more
    requires ParseLine(validate, index + 1, logical).Err?
    ensures FaultyFrom(validate, lines, index)
  {
    hide Group;
    BadLine(validate, index + 1, logical);
  }

  lemma BadLine(validate: NameRule, n: nat, logical: string)
    requires ParseLine(validate, n, logical).Err?
    ensures FaultAt(validate, Err(ParseLine(validate, n, logical).error), n)
  {
  }

  /** The first record of some lines: a written item, or an error about the first of them. */
  lemma FirstEvent(validate: NameRule, lines: seq<string>, plain: seq<string>, index: nat)
    returns (item: Option<Item>, k: nat)
    requires plain != [] && Stripped(lines, plain) && NoBreaks(plain)
    ensures item.Some? ==> 0 < k <= |plain| && IsItem(item.value) && Split(ItemText(item.value)) == plain[..k]
    ensures item.None? ==> FaultyFrom(validate, lines, index)
  {
    hide Group, Split, ScanLine, TrimStart, Equals, StripCr, FaultyFrom, IsItem, ItemText;
    var first := plain[0];
    assert lines == [lines[0]] + lines[1..];
    GroupStep(lines[0], lines[1..], index, None);
    if TrimStart(first) == "" || TrimStart(first)[0] == '#' {
      var skipped := SkipForms(first);
      item, k := Some(skipped), 1;
      SplitOneLine(first);
      assert plain[..1] == [first];
    } else if Equals(first) == |first| {
      FaultFirst(validate, lines, index);
      item, k := None, 0;
    } else {
      item, k := FirstRecord(validate, lines, plain, index);
    }
  }

  lemma SkipForms(line: string) returns (item: Item)
    requires '\n' !in line && (TrimStart(line) == "" || TrimStart(line)[0] == '#')
    ensures IsItem(item) && ItemText(item) == line
  {
    var space := Indentation(line);
    var rest := TrimStart(line);
    if rest == "" {
      item := BlankLine(space);
    } else {
      item := CommentLine(space, rest[1..]);
      assert rest == "#" + rest[1..];
    }
  }

  lemma FirstRecord(validate: NameRule, lines: seq<string>, plain: seq<string>, index: nat)
    returns (item: Option<Item>, k: nat)
    requires plain != [] && Stripped(lines, plain) && NoBreaks(plain)
    requires TrimStart(plain[0]) != "" && TrimStart(plain[0])[0] != '#' && Equals(plain[0]) < |plain[0]|
    ensures item.Some? ==> 0 < k <= |plain| && IsItem(item.value) && Split(ItemText(item.value)) == plain[..k]
    ensures item.None? ==> FaultyFrom(validate, lines, index)
  {
    hide Group, Split, ScanLine, TrimStart, Equals, StripCr, FaultyFrom, IsItem, ItemText;
    hide ParseLine, Join, RunsOn, LastVerdict;
    var first := plain[0];
    var input := TrimStart(first[Equals(first) + 1..]);
    var values := [input] + plain[1..];
    var t;
    k, t := FindClose(FRESH, values);
    if k == 0 {
      NeverEnds(lines, plain, index, input, t);
      FaultFirst(validate, lines, index);
      return None, 0;
    }
    assert plain[..k] == [first] + plain[1..k];
    assert values[..k] == [input] + plain[1..k];
    assert plain[..k][1..] == plain[1..k];
    assert lines == lines[..k] + lines[k..];
    StrippedFront(lines, plain, k);
    GroupRecord(lines[..k], plain[..k], lines[k..], index, input);
    var logical := Join(plain[..k]);
    RecordIsComplete(validate, index + 1, first, plain[1..k]);
    if ParseLine(validate, index + 1, logical).Err? {
      BadRecordFirst(validate, lines, index, logical, Group(lines[k..], index + k, None));
      return None, 0;
    }
    var it := RecordForms(validate, index + 1, first, plain[1..k]);
    SplitJoin(plain[..k]);
    item := Some(it);
  }

  lemma StrippedFront(lines: seq<string>, plain: seq<string>, k: nat)
    requires Stripped(lines, plain) && k <= |plain|
    ensures Stripped(lines[..k], plain[..k]) && Stripped(lines[k..], plain[k..])
  {
    assert plain == plain[..k] + plain[k..];
    StrippedParts(lines, plain[..k], plain[k..]);
  }

  lemma NeverEnds(lines: seq<string>, plain: seq<string>, index: nat, input: string, t: Scan)
    requires plain != [] && Stripped(lines, plain)
    requires TrimStart(plain[0]) != "" && TrimStart(plain[0])[0] != '#' && Equals(plain[0]) < |plain[0]|
    requires input == TrimStart(plain[0][Equals(plain[0]) + 1..]) && AllOpen(FRESH, [input] + plain[1..], t)
    ensures Group(lines, index, None) == [Fault(index + 1)]
  {
    hide Group, ScanLine, TrimStart, Equals, StripCr;
    assert lines == [lines[0]] + lines[1..];
    GroupStep(lines[0], lines[1..], index, None);
    assert ([input] + plain[1..])[1..] == plain[1..];
    GroupNever(lines[1..], plain[1..], index + 1, Pending(plain[0], index + 1, ScanLine(FRESH, input).0), t);
  }

  // ----- the whole file

  lemma {:induction false} FileForms(validate: NameRule, max: nat, lines: seq<string>, plain: seq<string>, index: nat,
                                     count: nat)
    returns (items: seq<Item>)
    requires Stripped(lines, plain) && NoBreaks(plain) && count <= max
    requires Evaluate(validate, max, Group(lines, index, None), count).Ok?
    ensures AreItems(validate, items) && AllLines(items) == plain
    ensures Evaluate(validate, max, Group(lines, index, None), count) == Ok(Written(items))
    ensures count + |Written(items)| <= max
    decreases |lines|
  {
    hide Evaluate, Group, Split, IsItem, ItemText, Meaning;
    if plain == [] {
      NoLines(validate, max, index, count);
      return [];
    }
    var item, k := FirstEvent(validate, lines, plain, index);
    if item.None? {
      NotFaulty(validate, max, lines, index, count);
      assert false;
    }
    StrippedFront(lines, plain, k);
    assert lines == lines[..k] + lines[k..];
    OneItem(validate, max, item.value, lines[..k], lines[k..], index, count);
    var taken := if item.value.Assign? then 1 else 0;
    var rest := FileForms(validate, max, lines[k..], plain[k..], index + k, count + taken);
    items := [item.value] + rest;
    assert items[1..] == rest;
    assert plain == plain[..k] + plain[k..];
    assert [] + Written(rest) == Written(rest);
  }

  lemma NotFaulty(validate: NameRule, max: nat, lines: seq<string>, index: nat, count: nat)
    requires FaultyFrom(validate, lines, index)
    ensures !Evaluate(validate, max, Group(lines, index, None), count).Ok?
  {
    assert FaultAt(validate, Evaluate(validate, max, Group(lines, index, None), count), index + 1);
  }

  /** `source` is a way of writing `entries`. */
  ghost predicate Writes(validate: NameRule, items: seq<Item>, source: string, entries: Entries) {
    items != [] && AreItems(validate, items) && Unix(source) == FileText(items) && Written(items) == entries
  }

  lemma AcceptedIsWritten(source: string, validate: NameRule, max: nat) returns (items: seq<Item>)
    requires ParseAll(source, validate, max).Ok?
    ensures Writes(validate, items, source, ParseAll(source, validate, max).value) && |Written(items)| <= max
  {
    hide Evaluate, Group, Split, AreItems, ItemText;
    UnixLines(source);
    SplitHasNone(Unix(source));
    items := FileForms(validate, max, Split(source), Split(Unix(source)), 0, 0);
    assert items != [];
    FileLines(items);
    JoinSplit(FileText(items));
    JoinSplit(Unix(source));
  }

  /** A file yields `entries` exactly when it is one of the ways of writing them, within the limit. */
  lemma AcceptedExactly(source: string, entries: Entries, validate: NameRule, max: nat)
    ensures ParseAll(source, validate, max) == Ok(entries) <==>
              |entries| <= max && exists items :: Writes(validate, items, source, entries)
  {
    hide ParseAll, AreItems, FileText, Unix, Written;
    if ParseAll(source, validate, max) == Ok(entries) {
      var items := AcceptedIsWritten(source, validate, max);
    }
    if |entries| <= max && exists items :: Writes(validate, items, source, entries) {
      var items :| Writes(validate, items, source, entries);
      WrittenReadsBack(items, source, validate, max);
    }
  }

  // ----- where it is refused

  /** Line breaks of a text. */
  function Breaks(s: string): nat {
    if s == "" then 0 else (if s[0] == '\n' then 1 else 0) + Breaks(s[1..])
  }

  lemma {:induction false} LineCount(s: string)
    ensures |Split(s)| == Breaks(s) + 1
  {
    if s != "" {
      LineCount(s[1..]);
    }
  }

  /** `text` is `item`, or goes on with it and a line break. */
  ghost predicate Begins(text: string, item: Item) {
    var t := ItemText(item);
    text == t || (|text| > |t| && text[..|t|] == t && text[|t|] == '\n')
  }

  /** `source` is `items`, one line break, and then `rest`. */
  ghost predicate Continues(validate: NameRule, items: seq<Item>, source: string, rest: string) {
    AreItems(validate, items) && Unix(source) == (if items == [] then "" else FileText(items) + "\n") + rest
  }

  /** The number of lines before `rest`. */
  function LinesBefore(items: seq<Item>): nat {
    if items == [] then 0 else Breaks(FileText(items) + "\n")
  }

  lemma {:induction false} BreaksAppend(a: string, b: string)
    ensures Breaks(a + b) == Breaks(a) + Breaks(b)
  {
    if a == "" {
      assert a + b == b;
    } else {
      assert (a + b)[1..] == a[1..] + b;
      BreaksAppend(a[1..], b);
    }
  }

  lemma ContinuedLines(validate: NameRule, items: seq<Item>, source: string, rest: string)
    ensures Continues(validate, items, source, rest) ==>
              Stripped(Split(source), AllLines(items) + Split(rest)) && |AllLines(items)| == LinesBefore(items)
  {
    hide Split, AreItems, FileText, Stripped, Unix;
    UnixLines(source);
    if items == [] {
      assert "" + rest == rest;
      assert [] + Split(rest) == Split(rest);
    } else {
      FileLines(items);
      SplitBreak(FileText(items), rest);
      LineCount(FileText(items));
      BreaksAppend(FileText(items), "\n");
      assert Breaks("\n") == 1;
    }
  }

  lemma {:induction false} JoinPrefix(lines: seq<string>, k: nat)
    requires 0 < k < |lines|
    ensures Join(lines) == Join(lines[..k]) + "\n" + Join(lines[k..])
  {
    if k == 1 {
      assert lines[..1] == [lines[0]];
    } else {
      JoinPrefix(lines[1..], k - 1);
      assert lines[..k][1..] == lines[1..][..k - 1];
      assert lines[1..][k - 1..] == lines[k..];
    }
  }

  lemma FoundBegins(rest: string, item: Item, k: nat)
    requires 0 < k <= |Split(rest)| && Split(ItemText(item)) == Split(rest)[..k]
    ensures Begins(rest, item)
  {
    hide Split, ItemText, Join;
    var lines := Split(rest);
    JoinSplit(rest);
    JoinSplit(ItemText(item));
    if k < |lines| {
      JoinPrefix(lines, k);
    } else {
      assert lines[..k] == lines;
    }
  }

  /** Where no item begins, the error is about that line. */
  lemma RefusedThere(items: seq<Item>, source: string, rest: string, validate: NameRule, max: nat)
    requires Continues(validate, items, source, rest)
    requires forall item :: IsItem(item) ==> !Begins(rest, item)
    ensures if |Written(items)| <= max then FaultAt(validate, ParseAll(source, validate, max), LinesBefore(items) + 1)
            else ParseAll(source, validate, max) == Err(AssignmentLimit)
  {
    hide Evaluate, Group, Split, AreItems, IsItem, Begins, FaultAt, FaultyFrom, Stripped, Unix, FileText, LinesBefore;
    var lines, n := Split(source), |AllLines(items)|;
    ContinuedLines(validate, items, source, rest);
    StrippedParts(lines, AllLines(items), Split(rest));
    SameCount(lines, AllLines(items) + Split(rest));
    ReadOn(validate, max, items, lines[..n], lines[n..], 0, 0);
    assert lines == lines[..n] + lines[n..];
    SplitHasNone(rest);
    var item, k := FirstEvent(validate, lines[n..], Split(rest), n);
    if item.Some? {
      FoundBegins(rest, item.value, k);
    } else {
      FaultStays(validate, max, Written(items), lines[n..], n);
    }
  }

  lemma FaultStays(validate: NameRule, max: nat, entries: Entries, lines: seq<string>, index: nat)
    requires FaultyFrom(validate, lines, index)
    ensures FaultAt(validate, Joined(entries, Evaluate(validate, max, Group(lines, index, None), |entries|)), index + 1)
  {
    hide Evaluate, Group;
    assert FaultAt(validate, Evaluate(validate, max, Group(lines, index, None), |entries|), index + 1);
  }

  /** A written assignment whose name the rule refuses. */
  lemma NameRefused(items: seq<Item>, source: string, item: Item, rest: string, validate: NameRule, max: nat)
    requires Continues(validate, items, source, ItemText(item) + "\n" + rest)
    requires IsItem(item) && item.Assign? && validate(item.key).Some?
    ensures ParseAll(source, validate, max) ==
              if |Written(items)| <= max
              then Err(InvalidName(LinesBefore(items) + 1, item.key, validate(item.key).value))
              else Err(AssignmentLimit)
  {
    hide Evaluate, Group, Split, AreItems, IsItem, Stripped, Unix, FileText, LinesBefore, ItemText;
    var lines, n := Split(source), |AllLines(items)|;
    var k := |Split(ItemText(item))|;
    var after := ItemText(item) + "\n" + rest;
    ContinuedLines(validate, items, source, after);
    SplitBreak(ItemText(item), rest);
    StrippedParts(lines, AllLines(items), Split(after));
    SameCount(lines, AllLines(items) + Split(after));
    StrippedParts(lines[n..], Split(ItemText(item)), Split(rest));
    ReadOn(validate, max, items, lines[..n], lines[n..], 0, 0);
    assert lines == lines[..n] + lines[n..];
    assert lines[n..] == lines[n..][..k] + lines[n..][k..];
    OneItem(validate, max, item, lines[n..][..k], lines[n..][k..], n, |Written(items)|);
  }

  // ----- names

  ghost predicate NameCharacter(c: char) {
    Letter(c) || Digit(c) || c == '_'
  }

  /** `GITHUB_` in any mixture of capitals and small letters. */
  ghost predicate BeginsReserved(name: string) {
    && |name| >= 7 && name[0] in "Gg" && name[1] in "Ii" && name[2] in "Tt" && name[3] in "Hh"
    && name[4] in "Uu" && name[5] in "Bb" && name[6] == '_'
  }

  /** Capitals of the small letters; everything else stays. */
  lemma Capitals(c: char)
    ensures forall k :: 0 <= k < 26 && c == "abcdefghijklmnopqrstuvwxyz"[k] ==>
              Upper(c) == "ABCDEFGHIJKLMNOPQRSTUVWXYZ"[k]
    ensures (forall k :: 0 <= k < 26 ==> c != "abcdefghijklmnopqrstuvwxyz"[k]) ==> Upper(c) == c
  {
    SmallLetters();
    if 'a' <= c <= 'z' {
      var k := c as int - 97;
      assert "abcdefghijklmnopqrstuvwxyz"[k] == c;
    }
  }

  lemma SmallLetters()
    ensures forall k :: 0 <= k < 26 ==> "abcdefghijklmnopqrstuvwxyz"[k] as int == 97 + k
    ensures forall k :: 0 <= k < 26 ==> "ABCDEFGHIJKLMNOPQRSTUVWXYZ"[k] as int == 65 + k
  {
  }

  lemma ReservedIs(name: string)
    ensures ReservedPrefix(name) <==> BeginsReserved(name)
  {
    if |name| >= 7 {
      assert forall i :: 0 <= i < 7 ==>
               (Upper(name[i]) == "GITHUB_"[i] <==>
                name[i] == "GITHUB_"[i] || name[i] == "github_"[i]);
    }
  }

  /** Which names are accepted, and which reason the others get. */
  lemma NamesAccepted(name: string)
    ensures ConfigurationName(name) ==
              if name == "" then Some("the name must not be empty")
              else if BeginsReserved(name) then Some("names must not start with GITHUB_")
              else if Digit(name[0]) then Some("names must not start with a digit")
              else if forall i :: 0 <= i < |name| ==> NameCharacter(name[i]) then None
              else Some("names may contain only ASCII letters, digits, and underscores")
  {
    hide Letter, Digit, BeginsReserved, ReservedPrefix, IsLetter, IsDigit;
    ReservedIs(name);
    forall i | 0 <= i < |name|
      ensures NameCharacter(name[i]) <==> IsLetter(name[i]) || IsDigit(name[i]) || name[i] == '_'
    {
      Classes(name[i]);
    }
    if name != "" {
      Classes(name[0]);
    }
  }
}
