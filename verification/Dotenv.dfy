/** The dotenv scanner.  One state machine decides on which physical line a `KEY=VALUE` record
    ends; another decodes the value.  They are written separately and must agree. */
module Dotenv {
  import opened Common

  datatype DotenvError =
    | Syntax(line: nat)
    | InvalidName(line: nat, name: string, reason: string)
    | AssignmentLimit

  datatype ParsedLine = Skip | Entry(key: string, value: string) | Incomplete

  datatype Quote = NoQuote | Single | Double

  function TrimStart(s: string): (r: string)
    ensures |r| <= |s|
  {
    if s != "" && IsWhitespace(s[0]) then TrimStart(s[1..]) else s
  }

  lemma {:induction false} TrimStartFacts(s: string)
    ensures var r := TrimStart(s);
            && r == s[|s| - |r|..]
            && (r != "" ==> !IsWhitespace(r[0]))
            && forall i :: 0 <= i < |s| - |r| ==> IsWhitespace(s[i])
  {
    if s != "" && IsWhitespace(s[0]) {
      TrimStartFacts(s[1..]);
    }
  }

  function TrimEnd(s: string): (r: string)
    ensures |r| <= |s| && r == s[..|r|]
  {
    if s != "" && IsWhitespace(s[|s| - 1]) then TrimEnd(s[..|s| - 1]) else s
  }

  /** The position of the first `=`, or the length when there is none. */
  function Equals(s: string): (e: nat)
    ensures e <= |s|
  {
    if s == "" || s[0] == '=' then 0 else Equals(s[1..]) + 1
  }

  lemma {:induction false} EqualsFacts(s: string)
    ensures '=' !in s[..Equals(s)] && (Equals(s) < |s| ==> s[Equals(s)] == '=')
  {
    if s != "" && s[0] != '=' {
      EqualsFacts(s[1..]);
      assert s[..Equals(s)] == [s[0]] + s[1..][..Equals(s) - 1];
    }
  }

  predicate StartsWith(s: string, prefix: string) {
    |prefix| <= |s| && s[..|prefix|] == prefix
  }

  // ----- where a record ends

  datatype Scan = Scan(quote: Quote, escaped: bool, expectingEnd: bool, atStart: bool)

  const FRESH: Scan := Scan(NoQuote, false, false, true)

  predicate IsBlank(c: char) { c == ' ' || c == '\t' || c == '\r' }

  /** One character; `None` when the record is known to end on this line. */
  function ScanStep(s: Scan, c: char): Option<Scan> {
    match s.quote
    case Single => Some(if c == '\'' then s.(quote := NoQuote) else s)
    case Double =>
      if s.escaped then Some(s.(escaped := false))
      else Some(if c == '"' then s.(quote := NoQuote) else if c == '\\' then s.(escaped := true) else s)
    case NoQuote =>
      if s.escaped then Some(s.(escaped := false, atStart := false))
      else if s.expectingEnd then (if IsBlank(c) then Some(s) else None)
      else if c == '\'' then Some(s.(quote := Single, atStart := false))
      else if c == '"' then Some(s.(quote := Double, atStart := false))
      else if c == '\\' then Some(s.(escaped := true))
      else if IsBlank(c) then Some(s.(expectingEnd := true))
      else if c == '#' && s.atStart then None
      else Some(s.(atStart := false))
  }

  /** A whole line: the state after it, and whether the record ends with it. */
  function ScanLine(s: Scan, input: string): (Scan, bool)
    decreases input
  {
    if input == "" then (s, s.escaped || s.quote.NoQuote?)
    else
      match ScanStep(s, input[0])
      case None => (s, true)
      case Some(t) => ScanLine(t, input[1..])
  }

  class ValueScan {
    var quote: Quote
    var escaped: bool
    var expectingEnd: bool
    var atStart: bool

    function State(): Scan
      reads this
    {
      Scan(quote, escaped, expectingEnd, atStart)
    }

    constructor ()
      ensures State() == FRESH
    {
      quote, escaped, expectingEnd, atStart := NoQuote, false, false, true;
    }

    method CompletesRecord(input: string) returns (complete: bool)
      modifies this
      ensures (State(), complete) == ScanLine(old(State()), input)
    {
      for i := 0 to |input|
        invariant ScanLine(State(), input[i..]) == ScanLine(old(State()), input)
      {
        ghost var before := State();
        var c := input[i];
        assert input[i..][1..] == input[i + 1..];
        match quote {
          case Single =>
            if c == '\'' {
              quote := NoQuote;
            }
          case Double =>
            if escaped {
              escaped := false;
            } else if c == '"' {
              quote := NoQuote;
            } else if c == '\\' {
              escaped := true;
            }
          case NoQuote =>
            if escaped {
              escaped := false;
              atStart := false;
            } else if expectingEnd {
              if !IsBlank(c) {
                return true;
              }
            } else if c == '\'' {
              quote := Single;
              atStart := false;
            } else if c == '"' {
              quote := Double;
              atStart := false;
            } else if c == '\\' {
              escaped := true;
            } else if IsBlank(c) {
              expectingEnd := true;
            } else if c == '#' && atStart {
              return true;
            } else {
              atStart := false;
            }
        }
        assert ScanStep(before, c) == Some(State());
      }
      if escaped {
        return true;
      }
      return quote.NoQuote?;
    }
  }

  // ----- what a value means

  datatype Parsed = Value(text: string) | Unclosed | Bad

  function Push(c: char, p: Parsed): Parsed {
    if p.Value? then Value([c] + p.text) else p
  }

  /** The character an escape stands for. */
  function DecodeEscape(c: char): Option<char> {
    if c in {'\\', '\'', '"', '$', ' '} then Some(c) else if c == 'n' then Some('\n') else None
  }

  function ParseFrom(quote: Quote, expectingEnd: bool, s: string): Parsed
    decreases s
  {
    if s == "" then (if quote.NoQuote? then Value("") else Unclosed)
    else if quote.Single? then
      if s[0] == '\'' then ParseFrom(NoQuote, expectingEnd, s[1..])
      else Push(s[0], ParseFrom(quote, expectingEnd, s[1..]))
    else if quote.NoQuote? && expectingEnd then
      if IsBlank(s[0]) then ParseFrom(quote, expectingEnd, s[1..]) else if s[0] == '#' then Value("") else Bad
    else if s[0] == '\\' then
      if |s| < 2 || DecodeEscape(s[1]).None? then Bad
      else Push(DecodeEscape(s[1]).value, ParseFrom(quote, expectingEnd, s[2..]))
    else if s[0] == '"' then
      ParseFrom(if quote.Double? then NoQuote else Double, expectingEnd, s[1..])
    else if quote.Double? then Push(s[0], ParseFrom(quote, expectingEnd, s[1..]))
    else if s[0] == '\'' then ParseFrom(Single, expectingEnd, s[1..])
    else if IsBlank(s[0]) then ParseFrom(quote, true, s[1..])
    else Push(s[0], ParseFrom(quote, expectingEnd, s[1..]))
  }

  function ParseValue(input: string): Parsed {
    if input == "" || input[0] == '#' then Value("") else ParseFrom(NoQuote, false, input)
  }

  ghost function PushAll(output: string, p: Parsed): Parsed {
    if p.Value? then Value(output + p.text) else p
  }

  lemma PushOne(output: string, c: char, p: Parsed)
    ensures PushAll(output, Push(c, p)) == PushAll(output + [c], p)
  {
    if p.Value? {
      assert output + ([c] + p.text) == output + [c] + p.text;
    }
  }

  /** The value decoder as written: one pass with an output buffer. */
  method DecodeValue(input: string) returns (result: Parsed)
    ensures result == ParseValue(input)
  {
    if input == "" || input[0] == '#' {
      return Value("");
    }
    var output := "";
    var quote := NoQuote;
    var expectingEnd := false;
    var i := 0;
    assert input[0..] == input;
    assert PushAll("", ParseFrom(NoQuote, false, input)) == ParseFrom(NoQuote, false, input) by {
      PushAllNothing(ParseFrom(NoQuote, false, input));
    }
    while i < |input|
      invariant 0 <= i <= |input|
      invariant PushAll(output, ParseFrom(quote, expectingEnd, input[i..])) == ParseValue(input)
    {
      var c := input[i];
      ghost var s := input[i..];
      assert s[1..] == input[i + 1..];
      i := i + 1;
      if quote.Single? {
        if c == '\'' {
          quote := NoQuote;
        } else {
          PushOne(output, c, ParseFrom(quote, expectingEnd, s[1..]));
          output := output + [c];
        }
      } else if quote.NoQuote? && expectingEnd {
        if !IsBlank(c) {
          if c == '#' {
            assert output + "" == output;
            return Value(output);
          }
          return Bad;
        }
      } else if c == '\\' {
        if i == |input| || DecodeEscape(input[i]).None? {
          return Bad;
        }
        assert s[2..] == input[i + 1..];
        PushOne(output, DecodeEscape(input[i]).value, ParseFrom(quote, expectingEnd, s[2..]));
        output := output + [DecodeEscape(input[i]).value];
        i := i + 1;
      } else if c == '"' {
        quote := if quote.Double? then NoQuote else Double;
      } else if quote.NoQuote? && c == '\'' {
        quote := Single;
      } else if quote.NoQuote? && IsBlank(c) {
        expectingEnd := true;
      } else {
        PushOne(output, c, ParseFrom(quote, expectingEnd, s[1..]));
        output := output + [c];
      }
    }
    assert output + "" == output;
    return if quote.NoQuote? then Value(output) else Unclosed;
  }

  lemma PushAllNothing(p: Parsed)
    ensures PushAll("", p) == p
  {
    if p.Value? {
      assert "" + p.text == p.text;
    }
  }

  // ----- the two machines agree

  /** The scanner is between characters of the value: past its first one, or about to read a
      first one that begins neither a comment nor trailing blanks. */
  ghost predicate Aligned(s: Scan, next: string) {
    && !s.escaped
    && (s.expectingEnd || !s.atStart || (s.quote.NoQuote? && next != "" && next[0] != '#' && !IsBlank(next[0])))
  }

  /** Physical lines of one record, joined as the parser stores them. */
  function Join(lines: seq<string>): string
    requires lines != []
  {
    if |lines| == 1 then lines[0] else lines[0] + "\n" + Join(lines[1..])
  }

  /** The scanner asks for more after every line but the last. */
  ghost predicate RunsOn(s: Scan, lines: seq<string>)
    requires lines != []
    decreases lines
  {
    |lines| == 1 || (!ScanLine(s, lines[0]).1 && RunsOn(ScanLine(s, lines[0]).0, lines[1..]))
  }

  ghost function LastVerdict(s: Scan, lines: seq<string>): bool
    requires lines != []
    decreases lines
  {
    if |lines| == 1 then ScanLine(s, lines[0]).1 else LastVerdict(ScanLine(s, lines[0]).0, lines[1..])
  }

  /** Whatever the scanner says about the last line, the decoder agrees: a completed record is
      never unclosed, and text the scanner wants continued has no value yet. */
  ghost predicate Agrees(verdict: bool, p: Parsed) {
    if verdict then p != Unclosed else !p.Value?
  }

  /** Taking one character off the first line changes neither the run nor the verdict. */
  lemma StepRuns(s: Scan, lines: seq<string>, t: Scan, rest: seq<string>)
    requires lines != [] && lines[0] != "" && RunsOn(s, lines)
    requires ScanStep(s, lines[0][0]) == Some(t) && rest == [lines[0][1..]] + lines[1..]
    ensures RunsOn(t, rest) && LastVerdict(t, rest) == LastVerdict(s, lines)
    ensures Join(lines) == [lines[0][0]] + Join(rest)
  {
    assert rest[1..] == lines[1..];
    assert lines[0] == [lines[0][0]] + lines[0][1..];
    if |lines| > 1 {
      assert Join(lines) == lines[0] + "\n" + Join(lines[1..]);
    }
  }

  /** One character that is not the beginning of an escape. */
  lemma CharacterAgrees(s: Scan, text: string, verdict: bool)
    requires text != "" && Aligned(s, text) && ScanStep(s, text[0]).Some? && !ScanStep(s, text[0]).value.escaped
    requires var t := ScanStep(s, text[0]).value; Agrees(verdict, ParseFrom(t.quote, t.expectingEnd, text[1..]))
    ensures Agrees(verdict, ParseFrom(s.quote, s.expectingEnd, text))
  {
  }

  /** A backslash and the character after it. */
  lemma EscapeAgrees(s: Scan, text: string, verdict: bool)
    requires |text| >= 2 && Aligned(s, text) && ScanStep(s, text[0]).Some? && ScanStep(s, text[0]).value.escaped
    requires Agrees(verdict, ParseFrom(s.quote, s.expectingEnd, text[2..]))
    ensures Agrees(verdict, ParseFrom(s.quote, s.expectingEnd, text))
  {
  }

  /** After a backslash the next character is taken, and the scanner is aligned again. */
  lemma EscapeStep(s: Scan, c: char, next: string)
    requires Aligned(s, [c] + next) && ScanStep(s, c).Some? && ScanStep(s, c).value.escaped && next != ""
    ensures var t := ScanStep(ScanStep(s, c).value, next[0]);
            t.Some? && Aligned(t.value, "") && t.value.quote == s.quote && t.value.expectingEnd == s.expectingEnd
  {
  }

  lemma StepAligned(s: Scan, c: char, next: string)
    requires Aligned(s, [c] + next) && ScanStep(s, c).Some? && !ScanStep(s, c).value.escaped
    ensures forall more :: Aligned(ScanStep(s, c).value, more)
  {
  }

  /** Where the scanner stops for good: at the end of the text, or where nothing may follow. */
  lemma StopAgrees(s: Scan, text: string)
    requires Aligned(s, text)
    requires (text == "" || ScanStep(s, text[0]).None? || (|text| == 1 && ScanStep(s, text[0]).value.escaped))
    ensures Agrees(ScanLine(s, text).1, ParseFrom(s.quote, s.expectingEnd, text))
  {
  }

  lemma {:induction false} AlignedAgree(s: Scan, lines: seq<string>)
    requires lines != [] && Aligned(s, lines[0]) && RunsOn(s, lines)
    ensures Agrees(LastVerdict(s, lines), ParseFrom(s.quote, s.expectingEnd, Join(lines)))
    decreases |lines|, |lines[0]|
  {
    hide ParseFrom, ScanStep, Agrees;
    var line, text := lines[0], Join(lines);
    if line == "" {
      if |lines| > 1 {
        assert text == "\n" + Join(lines[1..]);
        assert text[1..] == Join(lines[1..]);
        AlignedAgree(s, lines[1..]);
        NewlineAgrees(s, text, LastVerdict(s, lines));
      } else {
        StopAgrees(s, text);
      }
    } else if ScanStep(s, line[0]).None? || (|line| == 1 && ScanStep(s, line[0]).value.escaped) {
      StopsHere(s, line);
      StopAgrees(s, text);
    } else {
      var rest := [line[1..]] + lines[1..];
      var step := ScanStep(s, line[0]).value;
      assert line == [line[0]] + line[1..];
      StepRuns(s, lines, step, rest);
      assert text[1..] == Join(rest);
      if !step.escaped {
        StepAligned(s, line[0], line[1..]);
        AlignedAgree(step, rest);
        CharacterAgrees(s, text, LastVerdict(s, lines));
      } else {
        EscapeStep(s, line[0], line[1..]);
        var after := [rest[0][1..]] + rest[1..];
        var second := ScanStep(step, rest[0][0]).value;
        StepRuns(step, rest, second, after);
        assert text[2..] == Join(rest)[1..] == Join(after);
        AlignedAgree(second, after);
        EscapeAgrees(s, text, LastVerdict(s, lines));
      }
    }
  }

  /** Continuing over a line break means a quote is open, so the break belongs to the value. */
  lemma NewlineAgrees(s: Scan, text: string, verdict: bool)
    requires text != "" && text[0] == '\n' && !s.quote.NoQuote?
    requires Agrees(verdict, ParseFrom(s.quote, s.expectingEnd, text[1..]))
    ensures Agrees(verdict, ParseFrom(s.quote, s.expectingEnd, text))
  {
  }

  lemma StopsHere(s: Scan, line: string)
    requires line != "" && (ScanStep(s, line[0]).None? || (|line| == 1 && ScanStep(s, line[0]).value.escaped))
    ensures ScanLine(s, line).1
  {
  }

  /** The record boundary is exact.  When the scanner ends a record, the decoder never finds it
      unclosed; while the scanner asks for another line, the text so far has no value. */
  lemma ScannerSimulatesDecoder(lines: seq<string>)
    requires lines != [] && RunsOn(FRESH, lines)
    requires lines[0] != "" ==> !IsWhitespace(lines[0][0])
    ensures LastVerdict(FRESH, lines) ==> ParseValue(Join(lines)) != Unclosed
    ensures !LastVerdict(FRESH, lines) ==> !ParseValue(Join(lines)).Value?
  {
    if lines[0] != "" && lines[0][0] != '#' {
      AlignedAgree(FRESH, lines);
    }
  }

  // ----- one logical record

  /** The caller's name rule: `None` accepts, `Some(reason)` rejects. */
  type NameRule = string -> Option<string>

  function Trim(s: string): string {
    TrimEnd(TrimStart(s))
  }

  /** The record without leading blanks and without an `export` prefix. */
  function Assignment(line: string): string {
    var a := TrimStart(line);
    if StartsWith(a, "export") && |a| > 6 && IsWhitespace(a[6]) then TrimStart(a[6..]) else a
  }

  function ParseLine(validate: NameRule, number: nat, line: string): Result<ParsedLine, DotenvError> {
    var trimmed := TrimStart(line);
    if trimmed == "" || trimmed[0] == '#' then Ok(Skip)
    else
      var assignment := Assignment(line);
      var e := Equals(assignment);
      if e == |assignment| then Err(Syntax(number))
      else
        var key := Trim(assignment[..e]);
        if validate(key).Some? then Err(InvalidName(number, key, validate(key).value))
        else
          match ParseValue(TrimStart(assignment[e + 1..]))
          case Value(v) => Ok(Entry(key, v))
          case Unclosed => Ok(Incomplete)
          case Bad => Err(Syntax(number))
  }

  // ----- the file

  function StripCr(s: string): string {
    if s != "" && s[|s| - 1] == '\r' then s[..|s| - 1] else s
  }

  /** Physical lines: the text between newlines, including what follows the last one. */
  function Split(s: string): (lines: seq<string>)
    ensures lines != []
  {
    if s == "" then [""]
    else if s[0] == '\n' then [""] + Split(s[1..])
    else
      var rest := Split(s[1..]);
      [[s[0]] + rest[0]] + rest[1..]
  }

  /** A record being read: its text so far, its first line, and the scanner's state. */
  datatype Pending = Pending(logical: string, start: nat, scan: Scan)

  /** What the record scanner hands on: a finished record, or a place where it gives up. */
  datatype Event = Record(start: nat, logical: string) | Fault(line: nat)

  function Group(lines: seq<string>, index: nat, pending: Option<Pending>): seq<Event>
    decreases lines
  {
    if lines == [] then (if pending.Some? then [Fault(pending.value.start)] else [])
    else
      var physical := StripCr(lines[0]);
      match pending
      case None =>
        var trimmed := TrimStart(physical);
        var e := Equals(physical);
        if trimmed == "" || trimmed[0] == '#' then Group(lines[1..], index + 1, None)
        else if e == |physical| then [Fault(index + 1)]
        else
          var (scan, done) := ScanLine(FRESH, TrimStart(physical[e + 1..]));
          if done then [Record(index + 1, physical)] + Group(lines[1..], index + 1, None)
          else Group(lines[1..], index + 1, Some(Pending(physical, index + 1, scan)))
      case Some(p) =>
        var logical := p.logical + "\n" + physical;
        var (scan, done) := ScanLine(p.scan, physical);
        if done then [Record(p.start, logical)] + Group(lines[1..], index + 1, None)
        else Group(lines[1..], index + 1, Some(Pending(logical, p.start, scan)))
  }

  type Entries = seq<(string, string)>

  function Evaluate(validate: NameRule, max: nat, events: seq<Event>, count: nat): Result<Entries, DotenvError>
    decreases events
  {
    if events == [] then Ok([])
    else
      match events[0]
      case Fault(line) => Err(Syntax(line))
      case Record(start, logical) =>
        match ParseLine(validate, start, logical)
        case Err(error) => Err(error)
        case Ok(Skip) => Evaluate(validate, max, events[1..], count)
        case Ok(Incomplete) => Err(Syntax(start))
        case Ok(Entry(key, value)) =>
          if count == max then Err(AssignmentLimit)
          else
            var rest := Evaluate(validate, max, events[1..], count + 1);
            Prepend((key, value), rest)
  }

  function ParseAll(source: string, validate: NameRule, max: nat): Result<Entries, DotenvError> {
    Evaluate(validate, max, Group(Split(source), 0, None), 0)
  }

  /** What is left to do from physical line `index` on. */
  ghost function ToDo(validate: NameRule, max: nat, lines: seq<string>, index: nat, logical: string, start: nat,
                      scan: Scan,
                      count: nat): Result<Entries, DotenvError>
    requires index <= |lines|
  {
    var pending := if logical == "" then None else Some(Pending(logical, start, scan));
    Evaluate(validate, max, Group(lines[index..], index, pending), count)
  }

  /** The work left once `logical` has been handed on as a finished record. */
  ghost function Finish(validate: NameRule, max: nat, lines: seq<string>, index: nat, logical: string, start: nat,
                        count: nat)
    : Result<Entries, DotenvError>
    requires index < |lines|
  {
    Evaluate(validate, max, [Record(start, logical)] + Group(lines[index + 1..], index + 1, None), count)
  }

  lemma BeginStep(validate: NameRule, max: nat, lines: seq<string>, index: nat, start: nat, scan: Scan, count: nat)
    requires index < |lines|
    ensures var physical := StripCr(lines[index]);
            var trimmed := TrimStart(physical);
            var e := Equals(physical);
            var now := ToDo(validate, max, lines, index, "", start, scan, count);
            if trimmed == "" || trimmed[0] == '#'
            then now == ToDo(validate, max, lines, index + 1, "", index + 1, scan, count)
            else if e == |physical| then now == Err(Syntax(index + 1))
            else
              var (next, done) := ScanLine(FRESH, TrimStart(physical[e + 1..]));
              && physical != ""
              && now == if done then Finish(validate, max, lines, index, physical, index + 1, count)
                        else ToDo(validate, max, lines, index + 1, physical, index + 1, next, count)
  {
    hide ParseLine, ScanLine, Equals;
    assert lines[index..][1..] == lines[index + 1..];
  }

  lemma ContinueStep(validate: NameRule, max: nat, lines: seq<string>, index: nat, logical: string, start: nat,
                     scan: Scan,
                     count: nat)
    requires index < |lines| && logical != ""
    ensures var physical := StripCr(lines[index]);
            var joined := logical + "\n" + physical;
            var (next, done) := ScanLine(scan, physical);
            ToDo(validate, max, lines, index, logical, start, scan, count) ==
              if done then Finish(validate, max, lines, index, joined, start, count)
              else ToDo(validate, max, lines, index + 1, joined, start, next, count)
  {
    hide ParseLine, ScanLine, Evaluate;
    assert lines[index..][1..] == lines[index + 1..];
  }

  lemma EndStep(validate: NameRule, max: nat, lines: seq<string>, logical: string, start: nat, scan: Scan, count: nat)
    ensures ToDo(validate, max, lines, |lines|, logical, start, scan, count)
         == if logical != "" then Err(Syntax(start)) else Ok([])
  {
    assert lines[|lines|..] == [];
  }

  lemma FinishStep(validate: NameRule, max: nat, lines: seq<string>, index: nat, logical: string, start: nat,
                   scan: Scan, count: nat)
    requires index < |lines|
    ensures Finish(validate, max, lines, index, logical, start, count) ==
              match ParseLine(validate, start, logical)
              case Err(error) => Err(error)
              case Ok(Skip) => ToDo(validate, max, lines, index + 1, "", start, scan, count)
              case Ok(Incomplete) => Err(Syntax(start))
              case Ok(Entry(key, value)) =>
                if count == max then Err(AssignmentLimit)
                else
                  var rest := ToDo(validate, max, lines, index + 1, "", start, scan, count + 1);
                  Prepend((key, value), rest)
  {
    hide ParseLine, Group;
    var more := Group(lines[index + 1..], index + 1, None);
    assert ([Record(start, logical)] + more)[1..] == more;
  }

  /** Parses a finished record and adds its entry, if it has one. */
  method Accept(validate: NameRule, max: nat, start: nat, logical: string, entries: Entries,
                ghost lines: seq<string>, ghost index: nat, ghost scan: Scan)
    returns (result: Result<Entries, DotenvError>)
    requires index < |lines|
    ensures Joined(entries, Finish(validate, max, lines, index, logical, start, |entries|)) ==
              if result.Err? then Err(result.error)
              else Joined(result.value, ToDo(validate, max, lines, index + 1, "", start, scan, |result.value|))
  {
    hide ParseLine, ToDo, Finish;
    FinishStep(validate, max, lines, index, logical, start, scan, |entries|);
    var parsed := ParseLine(validate, start, logical);
    match parsed {
      case Err(error) => return Err(error);
      case Ok(Skip) => return Ok(entries);
      case Ok(Entry(key, value)) =>
        if |entries| == max {
          return Err(AssignmentLimit);
        }
        JoinedMore(entries, (key, value), ToDo(validate, max, lines, index + 1, "", start, scan, |entries| + 1));
        return Ok(entries + [(key, value)]);
      case Ok(Incomplete) => return Err(Syntax(start));
    }
  }

  method ParseDotenv(source: string, validate: NameRule, max: nat) returns (result: Result<Entries, DotenvError>)
    ensures result == ParseAll(source, validate, max)
  {
    hide ParseLine, ScanLine, ScanStep, TrimStart, Equals, ToDo, Evaluate, Group, Finish, Split, StripCr;
    var lines := Split(source);
    var entries: Entries := [];
    var logical, start := "", 1;
    var scan := new ValueScan();
    Beginning(source, validate, max, scan.State());
    for index := 0 to |lines|
      invariant Joined(entries, ToDo(validate, max, lines, index, logical, start, scan.State(), |entries|))
             == ParseAll(source, validate, max)
      invariant fresh(scan)
    {
      var physical := StripCr(lines[index]);
      var complete;
      if logical == "" {
        BeginStep(validate, max, lines, index, start, scan.State(), |entries|);
        start := index + 1;
        var trimmed := TrimStart(physical);
        if trimmed == "" || trimmed[0] == '#' {
          continue;
        }
        var e := Equals(physical);
        if e == |physical| {
          return Err(Syntax(start));
        }
        scan := new ValueScan();
        logical := physical;
        complete := scan.CompletesRecord(TrimStart(physical[e + 1..]));
      } else {
        ContinueStep(validate, max, lines, index, logical, start, scan.State(), |entries|);
        logical := logical + "\n" + physical;
        complete := scan.CompletesRecord(physical);
      }
      if !complete {
        continue;
      }
      var accepted := Accept(validate, max, start, logical, entries, lines, index, scan.State());
      if accepted.Err? {
        return Err(accepted.error);
      }
      entries := accepted.value;
      logical := "";
    }
    EndStep(validate, max, lines, logical, start, scan.State(), |entries|);
    if logical != "" {
      return Err(Syntax(start));
    }
    assert entries + [] == entries;
    return Ok(entries);
  }

  lemma Beginning(source: string, validate: NameRule, max: nat, scan: Scan)
    ensures Joined([], ToDo(validate, max, Split(source), 0, "", 1, scan, 0)) == ParseAll(source, validate, max)
  {
    assert Split(source)[0..] == Split(source);
    JoinedNothing(ParseAll(source, validate, max));
  }

  // ----- every finished record parses to an end

  /** The scanner reads `lines` from `s` to `t` and asks for more after each of them. */
  ghost predicate AllOpen(s: Scan, lines: seq<string>, t: Scan)
    decreases lines
  {
    if lines == [] then s == t
    else !ScanLine(s, lines[0]).1 && AllOpen(ScanLine(s, lines[0]).0, lines[1..], t)
  }

  lemma {:induction false} OpenThen(s: Scan, lines: seq<string>, t: Scan, x: string)
    requires AllOpen(s, lines, t)
    ensures RunsOn(s, lines + [x]) && LastVerdict(s, lines + [x]) == ScanLine(t, x).1
    ensures !ScanLine(t, x).1 ==> AllOpen(s, lines + [x], ScanLine(t, x).0)
    decreases lines
  {
    hide ScanLine;
    if lines != [] {
      OpenThen(ScanLine(s, lines[0]).0, lines[1..], t, x);
      assert (lines + [x])[1..] == lines[1..] + [x];
    }
  }

  lemma {:induction false} JoinAppend(lines: seq<string>, x: string)
    requires lines != []
    ensures Join(lines + [x]) == Join(lines) + "\n" + x
    decreases lines
  {
    if |lines| > 1 {
      assert (lines + [x])[1..] == lines[1..] + [x];
      JoinAppend(lines[1..], x);
    }
  }

  lemma {:induction false} TrimStartAppend(a: string, b: string)
    requires TrimStart(a) != ""
    ensures TrimStart(a + b) == TrimStart(a) + b
  {
    if IsWhitespace(a[0]) {
      assert (a + b)[1..] == a[1..] + b;
      TrimStartAppend(a[1..], b);
    }
  }

  lemma EqualsUnique(s: string, e: nat)
    requires e <= |s| && '=' !in s[..e] && (e < |s| ==> s[e] == '=')
    ensures Equals(s) == e
  {
    EqualsFacts(s);
    NotInPrefix(s, e);
    NotInPrefix(s, Equals(s));
  }

  lemma NotInPrefix(s: string, e: nat)
    requires e <= |s| && '=' !in s[..e]
    ensures forall i :: 0 <= i < e ==> s[i] != '='
  {
    forall i | 0 <= i < e
      ensures s[i] != '='
    {
      assert s[i] == s[..e][i];
    }
  }

  /** `a` is `line` with some front removed, and they split at the same `=`. */
  ghost predicate SameSplit(line: string, a: string) {
    Equals(line) < |line| ==>
      && Equals(a) < |a| && Equals(a) <= Equals(line)
      && a[..Equals(a)] == line[Equals(line) - Equals(a)..Equals(line)]
      && a[Equals(a) + 1..] == line[Equals(line) + 1..]
  }

  lemma SameSplitTransitive(a: string, b: string, c: string)
    requires SameSplit(a, b) && SameSplit(b, c)
    ensures SameSplit(a, c)
  {
    hide Equals;
    if Equals(a) < |a| {
      assert c[..Equals(c)] == b[..Equals(b)][Equals(b) - Equals(c)..];
      assert a[Equals(a) - Equals(c)..Equals(a)] == a[Equals(a) - Equals(b)..Equals(a)][Equals(b) - Equals(c)..];
    }
  }

  lemma DropSplit(line: string, off: nat, a: string)
    requires off <= |line| && a == line[off..] && forall i :: 0 <= i < off ==> line[i] != '='
    ensures SameSplit(line, a)
  {
    hide Equals;
    var e := Equals(line);
    EqualsFacts(line);
    if e < |line| {
      NotInPrefix(line, e);
      var front := line[off..e];
      assert a[..e - off] == front;
      assert forall i :: 0 <= i < |front| ==> front[i] == line[off + i];
      assert '=' !in front;
      assert a[e - off] == line[e];
      EqualsUnique(a, e - off);
    }
  }

  lemma TrimSplit(s: string)
    ensures SameSplit(s, TrimStart(s))
  {
    TrimStartFacts(s);
    DropSplit(s, |s| - |TrimStart(s)|, TrimStart(s));
  }

  lemma PrefixHasNoEquals(a: string)
    requires StartsWith(a, "export")
    ensures forall i :: 0 <= i < 6 ==> a[i] != '='
  {
    forall i | 0 <= i < 6
      ensures a[i] != '='
    {
      assert a[i] == a[..6][i];
    }
  }

  /** Removing blanks and `export` removes no `=`, so key and value split at the same place. */
  lemma AssignmentSplit(line: string)
    ensures SameSplit(line, Assignment(line))
  {
    hide Equals, TrimStart, SameSplit;
    var a := TrimStart(line);
    TrimSplit(line);
    if StartsWith(a, "export") && |a| > 6 && IsWhitespace(a[6]) {
      PrefixHasNoEquals(a);
      DropSplit(a, 6, a[6..]);
      TrimSplit(a[6..]);
      SameSplitTransitive(line, a, a[6..]);
      SameSplitTransitive(line, a[6..], TrimStart(a[6..]));
    }
  }

  /** How a record with a key and a value is parsed. */
  lemma ParseKeyed(validate: NameRule, start: nat, logical: string, value: string)
    requires TrimStart(logical) != "" && TrimStart(logical)[0] != '#' && Equals(logical) < |logical|
    requires value == TrimStart(logical[Equals(logical) + 1..]) && ParseValue(value) != Unclosed
    ensures ParseLine(validate, start, logical) != Ok(Skip) && ParseLine(validate, start, logical) != Ok(Incomplete)
  {
    hide Equals, TrimStart, ParseValue, Assignment;
    AssignmentSplit(logical);
  }

  /** A record assembled by the scanner has a key, is no comment, and its value is closed. */
  lemma RecordIsComplete(validate: NameRule, start: nat, physical: string, more: seq<string>)
    requires TrimStart(physical) != "" && TrimStart(physical)[0] != '#' && Equals(physical) < |physical|
    requires var values := [TrimStart(physical[Equals(physical) + 1..])] + more;
             RunsOn(FRESH, values) && LastVerdict(FRESH, values)
    ensures ParseLine(validate, start, Join([physical] + more)) != Ok(Skip)
    ensures ParseLine(validate, start, Join([physical] + more)) != Ok(Incomplete)
  {
    hide ScanLine, ParseValue, ParseLine, LastVerdict, RunsOn, Equals, TrimStart, Join;
    var e := Equals(physical);
    var input := physical[e + 1..];
    var logical := Join([physical] + more);
    var tail := if more == [] then "" else "\n" + Join(more);
    JoinFront(physical, more);
    JoinFront(TrimStart(input), more);
    assert logical == physical + tail;
    TrimStartAppend(physical, tail);
    EqualsAppend(physical, tail);
    assert logical[e + 1..] == input + tail;
    ValueText(input, more, tail);
    TrimmedFirst(input);
    ScannerSimulatesDecoder([TrimStart(input)] + more);
    ParseKeyed(validate, start, logical, TrimStart(input + tail));
  }

  lemma EqualsAppend(a: string, b: string)
    requires Equals(a) < |a|
    ensures Equals(a + b) == Equals(a)
  {
    hide Equals;
    EqualsFacts(a);
    assert (a + b)[..Equals(a)] == a[..Equals(a)];
    EqualsUnique(a + b, Equals(a));
  }

  lemma TrimmedFirst(s: string)
    ensures TrimStart(s) != "" ==> !IsWhitespace(TrimStart(s)[0])
  {
    TrimStartFacts(s);
  }

  lemma JoinFront(first: string, more: seq<string>)
    ensures Join([first] + more) == first + (if more == [] then "" else "\n" + Join(more))
  {
    assert ([first] + more)[1..] == more;
  }

  /** An empty first value ends the record at once, so trimming the joined text and joining the
      trimmed text are the same. */
  lemma ValueText(input: string, more: seq<string>, tail: string)
    requires RunsOn(FRESH, [TrimStart(input)] + more)
    requires tail == if more == [] then "" else "\n" + Join(more)
    ensures TrimStart(input + tail) == TrimStart(input) + tail
  {
    if TrimStart(input) != "" {
      TrimStartAppend(input, tail);
    } else {
      assert ([TrimStart(input)] + more)[0] == "";
      assert more == [];
      assert input + tail == input;
    }
  }

  /** `pending` was assembled from `physical` and `more`, and its value is still open. */
  ghost predicate Assembled(pending: Option<Pending>, physical: string, more: seq<string>) {
    pending.Some? ==>
      && TrimStart(physical) != "" && TrimStart(physical)[0] != '#' && Equals(physical) < |physical|
      && pending.value.logical == Join([physical] + more)
      && AllOpen(FRESH, [TrimStart(physical[Equals(physical) + 1..])] + more, pending.value.scan)
  }

  /** `r` decodes to an entry or an error. */
  ghost predicate Decodes(validate: NameRule, r: Event) {
    r.Record? ==>
      ParseLine(validate, r.start, r.logical) != Ok(Skip) && ParseLine(validate, r.start, r.logical) != Ok(Incomplete)
  }

  lemma BeginAssembled(index: nat, next: string)
    requires TrimStart(next) != "" && TrimStart(next)[0] != '#' && Equals(next) < |next|
    ensures var (scan, done) := ScanLine(FRESH, TrimStart(next[Equals(next) + 1..]));
            if done then forall validate :: Decodes(validate, Record(index, next))
            else Assembled(Some(Pending(next, index, scan)), next, [])
  {
    hide ScanLine, ParseLine, Equals, TrimStart;
    var value := TrimStart(next[Equals(next) + 1..]);
    OpenThen(FRESH, [], FRESH, value);
    assert [] + [value] == [value] + [];
    assert [next] + [] == [next];
    if ScanLine(FRESH, value).1 {
      forall validate
        ensures Decodes(validate, Record(index, next))
      {
        RecordIsComplete(validate, index, next, []);
      }
    }
  }

  lemma ContinueAssembled(p: Pending, physical: string, more: seq<string>, next: string)
    requires Assembled(Some(p), physical, more)
    ensures var (scan, done) := ScanLine(p.scan, next);
            var logical := p.logical + "\n" + next;
            if done then forall validate :: Decodes(validate, Record(p.start, logical))
            else Assembled(Some(Pending(logical, p.start, scan)), physical, more + [next])
  {
    hide ScanLine, ParseLine, Equals, TrimStart, Join, AllOpen, RunsOn, LastVerdict;
    var value := TrimStart(physical[Equals(physical) + 1..]);
    OpenThen(FRESH, [value] + more, p.scan, next);
    assert [value] + more + [next] == [value] + (more + [next]);
    JoinAppend([physical] + more, next);
    assert [physical] + more + [next] == [physical] + (more + [next]);
    if ScanLine(p.scan, next).1 {
      forall validate
        ensures Decodes(validate, Record(p.start, p.logical + "\n" + next))
      {
        RecordIsComplete(validate, p.start, physical, more + [next]);
      }
    }
  }

  /** In no file does a finished record decode to "nothing here" or to "not closed yet". */
  lemma {:induction false} GroupIsComplete(validate: NameRule, lines: seq<string>, index: nat, pending: Option<Pending>,
                                           physical: string, more: seq<string>)
    requires Assembled(pending, physical, more)
    ensures forall r :: r in Group(lines, index, pending) ==> Decodes(validate, r)
    decreases lines
  {
    hide ScanLine, Equals, TrimStart, Assembled, Decodes;
    if lines == [] {
      FaultDecodes(validate);
    } else {
      var next := StripCr(lines[0]);
      NothingAssembled();
      GroupIsComplete(validate, lines[1..], index + 1, None, "", []);
      FaultDecodes(validate);
      match pending
      case None =>
        var trimmed := TrimStart(next);
        var e := Equals(next);
        if trimmed != "" && trimmed[0] != '#' && e < |next| {
          BeginAssembled(index + 1, next);
          var (scan, done) := ScanLine(FRESH, TrimStart(next[e + 1..]));
          if !done {
            GroupIsComplete(validate, lines[1..], index + 1, Some(Pending(next, index + 1, scan)), next, []);
          }
        }
      case Some(p) =>
        ContinueAssembled(p, physical, more, next);
        var (scan, done) := ScanLine(p.scan, next);
        if !done {
          GroupIsComplete(validate, lines[1..], index + 1, Some(Pending(p.logical + "\n" + next, p.start, scan)),
                          physical, more + [next]);
        }
    }
  }

  lemma FaultDecodes(validate: NameRule)
    ensures forall line :: Decodes(validate, Fault(line))
  {
  }

  lemma NothingAssembled()
    ensures Assembled(None, "", [])
  {
  }

  /** The `Skip` and `Incomplete` arms of the file parser are never taken, for any source. */
  lemma EveryRecordDecodes(source: string, validate: NameRule, r: Event)
    requires r in Group(Split(source), 0, None) && r.Record?
    ensures var parsed := ParseLine(validate, r.start, r.logical);
            parsed.Err? || parsed.value.Entry?
  {
    hide Group, Split, ParseLine;
    NothingAssembled();
    GroupIsComplete(validate, Split(source), 0, None, "", []);
    assert Decodes(validate, r);
  }

  // ----- printing and reading back

  function EscapeValue(v: string): string {
    if v == "" then ""
    else (if v[0] == '\\' then "\\\\" else if v[0] == '"' then "\\\"" else if v[0] == '\n' then "\\n" else [v[0]])
         + EscapeValue(v[1..])
  }

  function PrintLine(key: string, value: string): string {
    key + "=\"" + EscapeValue(value) + "\""
  }

  function PrintFile(entries: Entries): string {
    if entries == [] then "" else PrintLine(entries[0].0, entries[0].1) + "\n" + PrintFile(entries[1..])
  }

  /** Names that can stand before `=`: no `=` or line break in them, no blanks around them, and
      nothing that reads as a comment or as an `export` prefix.  Every name the shared naming
      rule accepts is of this kind. */
  ghost predicate Printable(key: string) {
    && '=' !in key && '\n' !in key
    && Trim(key) == key
    && (key != "" ==> key[0] != '#')
    && !(StartsWith(key, "export") && |key| > 6 && IsWhitespace(key[6]))
  }

  lemma {:induction false} EscapedParses(v: string)
    ensures ParseFrom(Double, false, EscapeValue(v) + "\"") == Value(v)
    decreases v
  {
    var text := EscapeValue(v) + "\"";
    if v != "" {
      EscapedParses(v[1..]);
      var rest := EscapeValue(v[1..]) + "\"";
      assert v == [v[0]] + v[1..];
      if v[0] == '\\' || v[0] == '"' || v[0] == '\n' {
        assert text[2..] == rest;
      } else {
        assert text[1..] == rest;
      }
    } else {
      assert text[1..] == "";
    }
  }

  /** Inside the quotes the scanner only waits for the closing one. */
  lemma {:induction false} EscapedScans(v: string)
    ensures ScanLine(Scan(Double, false, false, false), EscapeValue(v) + "\"").1
    decreases v
  {
    var text := EscapeValue(v) + "\"";
    if v != "" {
      EscapedScans(v[1..]);
      var rest := EscapeValue(v[1..]) + "\"";
      if v[0] == '\\' || v[0] == '"' || v[0] == '\n' {
        assert text[1..][1..] == rest;
      } else {
        assert text[1..] == rest;
      }
    } else {
      assert text[1..] == "";
    }
  }

  lemma {:induction false} EscapedOneLine(v: string)
    ensures '\n' !in EscapeValue(v)
    decreases v
  {
    if v != "" {
      EscapedOneLine(v[1..]);
    }
  }

  lemma QuotedValue(v: string)
    ensures ParseValue("\"" + EscapeValue(v) + "\"") == Value(v)
    ensures ScanLine(FRESH, "\"" + EscapeValue(v) + "\"").1
  {
    var text := "\"" + EscapeValue(v) + "\"";
    assert text[1..] == EscapeValue(v) + "\"";
    EscapedParses(v);
    EscapedScans(v);
  }

  /** A value without single quotes can be written between them, line breaks and all. */
  lemma {:induction false} SingleQuotedReadsBack(v: string)
    requires '\'' !in v
    ensures ParseFrom(Single, false, v + "'") == Value(v)
    ensures ParseValue("'" + v + "'") == Value(v)
    decreases v
  {
    var text := "'" + v + "'";
    assert text[1..] == v + "'";
    if v == "" {
      assert (v + "'")[1..] == "";
    } else {
      SingleQuotedReadsBack(v[1..]);
      assert (v + "'")[1..] == v[1..] + "'";
      assert [v[0]] + v[1..] == v;
    }
  }

  /** A value without quotes, backslashes and blanks needs no quoting at all, and may be
      followed by blanks and a comment. */
  lemma {:induction false} PlainReadsBack(v: string, comment: string)
    requires forall i :: 0 <= i < |v| ==> v[i] !in {'\'', '"', '\\'} && !IsBlank(v[i])
    ensures ParseFrom(NoQuote, false, v) == Value(v)
    ensures ParseFrom(NoQuote, false, v + " #" + comment) == Value(v)
    decreases v
  {
    var text := v + " #" + comment;
    if v == "" {
      assert text[1..] == "#" + comment;
    } else {
      PlainReadsBack(v[1..], comment);
      assert text[1..] == v[1..] + " #" + comment;
      assert [v[0]] + v[1..] == v;
    }
  }

  lemma {:induction false} SplitLine(line: string, rest: string)
    requires '\n' !in line
    ensures Split(line + "\n" + rest) == [line] + Split(rest)
    decreases line
  {
    var s := line + "\n" + rest;
    if line == "" {
      assert s[1..] == rest;
    } else {
      assert s[1..] == line[1..] + "\n" + rest;
      SplitLine(line[1..], rest);
      assert ([line[1..]] + Split(rest))[1..] == Split(rest);
      assert [line[0]] + line[1..] == line;
    }
  }

  /** The key comes back whole from a printed line. */
  lemma PrintedSplits(key: string, value: string)
    requires Printable(key)
    ensures var line := PrintLine(key, value);
            && TrimStart(line) == line && line != "" && line[0] != '#'
            && Equals(line) == |key| < |line| && Assignment(line) == line
            && line[..|key|] == key && line[|key| + 1..] == "\"" + EscapeValue(value) + "\""
            && StripCr(line) == line && '\n' !in line
  {
    hide EscapeValue;
    var line := PrintLine(key, value);
    assert line[..|key|] == key;
    EqualsUnique(line, |key|);
    EscapedOneLine(value);
    TrimmedKey(key);
    NotExport(key, line);
  }

  lemma TrimmedKey(key: string)
    requires Trim(key) == key
    ensures key != "" ==> !IsWhitespace(key[0])
  {
    TrimEndShorter(TrimStart(key));
  }

  lemma TrimEndShorter(s: string)
    ensures |TrimEnd(s)| <= |s|
  {
  }

  lemma NotExport(key: string, line: string)
    requires '=' !in key && |key| < |line| && line[..|key|] == key && line[|key|] == '='
    requires !(StartsWith(key, "export") && |key| > 6 && IsWhitespace(key[6]))
    ensures !(StartsWith(line, "export") && |line| > 6 && IsWhitespace(line[6]))
  {
    if StartsWith(line, "export") && |line| > 6 {
      PrefixHasNoEquals(line);
      assert |key| >= 6;
      assert key[..6] == line[..6];
      if |key| > 6 {
        assert key[6] == line[6];
      }
    }
  }

  lemma PrintedParses(validate: NameRule, n: nat, key: string, value: string)
    requires Printable(key) && validate(key).None?
    ensures ParseLine(validate, n, PrintLine(key, value)) == Ok(Entry(key, value))
  {
    hide EscapeValue, Assignment, Equals, ParseValue;
    PrintedSplits(key, value);
    QuotedValue(value);
    assert Trim(key) == key;
  }

  ghost predicate AllPrintable(validate: NameRule, entries: Entries) {
    forall i :: 0 <= i < |entries| ==> Printable(entries[i].0) && validate(entries[i].0).None?
  }

  lemma {:induction false} PrintedGroups(validate: NameRule, entries: Entries, index: nat, count: nat, max: nat)
    requires AllPrintable(validate, entries) && count <= max
    ensures Evaluate(validate, max, Group(Split(PrintFile(entries)), index, None), count)
         == if count + |entries| <= max then Ok(entries) else Err(AssignmentLimit)
    decreases entries
  {
    hide ParseLine, PrintLine, Printable, ScanLine, Equals, Split, EscapeValue, Group;
    if entries == [] {
      EmptyFile(validate, index, count, max);
    } else {
      var key, value := entries[0].0, entries[0].1;
      var line := PrintLine(key, value);
      var lines := Split(PrintFile(entries[1..]));
      GroupPrinted(key, value, PrintFile(entries[1..]), index);
      var events := Group(lines, index + 1, None);
      assert ([Record(index + 1, line)] + events)[1..] == events;
      PrintedParses(validate, index + 1, key, value);
      if count < max {
        PrintedGroups(validate, entries[1..], index + 1, count + 1, max);
        assert [(key, value)] + entries[1..] == entries;
      }
    }
  }

  lemma EmptyFile(validate: NameRule, index: nat, count: nat, max: nat)
    ensures Evaluate(validate, max, Group(Split(""), index, None), count) == Ok([])
  {
    assert Group([""][1..], index + 1, None) == [];
  }

  lemma GroupPrinted(key: string, value: string, rest: string, index: nat)
    requires Printable(key)
    ensures Group(Split(PrintLine(key, value) + "\n" + rest), index, None)
         == [Record(index + 1, PrintLine(key, value))] + Group(Split(rest), index + 1, None)
  {
    hide ScanLine, Equals, TrimStart, PrintLine, EscapeValue, Split;
    var line := PrintLine(key, value);
    PrintedSplits(key, value);
    QuotedValue(value);
    QuoteTrimmed(value);
    SplitLine(line, rest);
    assert ([line] + Split(rest))[1..] == Split(rest);
  }

  lemma QuoteTrimmed(value: string)
    ensures TrimStart("\"" + EscapeValue(value) + "\"") == "\"" + EscapeValue(value) + "\""
  {
  }

  /** Any list of printable names with arbitrary values, written out, reads back unchanged, or
      is refused for exceeding the limit. */
  lemma PrintedReadsBack(entries: Entries, validate: NameRule, max: nat)
    requires AllPrintable(validate, entries)
    ensures ParseAll(PrintFile(entries), validate, max)
         == if |entries| <= max then Ok(entries) else Err(AssignmentLimit)
  {
    PrintedGroups(validate, entries, 0, 0, max);
  }

  // ----- the naming rule both callers use

  function Upper(c: char): char {
    if 'a' <= c <= 'z' then (c as int - 32) as char else c
  }

  predicate ReservedPrefix(name: string) {
    |name| >= 7 && forall i :: 0 <= i < 7 ==> Upper(name[i]) == "GITHUB_"[i]
  }

  function ConfigurationName(name: string): Option<string> {
    if name == "" then Some("the name must not be empty")
    else if ReservedPrefix(name) then Some("names must not start with GITHUB_")
    else if IsDigit(name[0]) then Some("names must not start with a digit")
    else if exists i :: 0 <= i < |name| && !(IsLetter(name[i]) || IsDigit(name[i]) || name[i] == '_')
      then Some("names may contain only ASCII letters, digits, and underscores")
    else None
  }

  lemma TrimSolid(s: string)
    requires forall i :: 0 <= i < |s| ==> !IsWhitespace(s[i])
    ensures Trim(s) == s
  {
  }

  /** Every accepted configuration name can be printed, so with the real naming rule the round
      trip covers all of them. */
  lemma AcceptedNamesArePrintable(name: string)
    requires ConfigurationName(name).None?
    ensures Printable(name)
  {
    assert forall i :: 0 <= i < |name| ==> IsLetter(name[i]) || IsDigit(name[i]) || name[i] == '_';
    TrimSolid(name);
  }
}
