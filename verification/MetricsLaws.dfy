/** The metrics log as text: what a record looks like, which lines the reader takes, skips or
    refuses, and what the repair of its last line leaves, with every constant written out. */
module MetricsLaws {
  import opened Common
  import opened MetricsRecord
  import opened MetricsLog
  import Json

  // ----- a record

  /** How a character stands between quotes. */
  function Quoted(c: char): string {
    match c
    case '"' => "\\\""
    case '\\' => "\\\\"
    case '\U{0008}' => "\\b"
    case '\t' => "\\t"
    case '\n' => "\\n"
    case '\U{000C}' => "\\f"
    case '\r' => "\\r"
    case _ => if c as int < 32 then HexEscape(c as int) else [c]
  }

  function HexEscape(code: nat): string
    requires code < 32
  {
    "\\u00" + [if code < 16 then '0' else '1', "0123456789abcdef"[code % 16]]
  }

  function QuotedAll(s: string): string {
    if s == "" then "" else Quoted(s[0]) + QuotedAll(s[1..])
  }

  function QuotedText(s: string): string {
    "\"" + QuotedAll(s) + "\""
  }

  function Commas(texts: seq<string>): string {
    if texts == [] then ""
    else if |texts| == 1 then texts[0]
    else texts[0] + "," + Commas(texts[1..])
  }

  function Pair(name: string, text: string): string {
    "\"" + name + "\":" + text
  }

  function Braces(pairs: seq<string>): string {
    "{" + Commas(pairs) + "}"
  }

  function Brackets(texts: seq<string>): string {
    "[" + Commas(texts) + "]"
  }

  function StageText(s: StageDuration): string {
    Braces([Pair("name", QuotedText(s.name)), Pair("duration_ms", s.durationMs)])
  }

  function StepText(s: StepDuration): string {
    Braces([Pair("job", QuotedText(s.job)), Pair("step", QuotedText(s.step)), Pair("duration_ms", s.durationMs)])
  }

  function CounterText(c: HitMissCounter): string {
    Braces([Pair("name", QuotedText(c.name)), Pair("hits", c.hits), Pair("misses", c.misses), Pair("bytes", c.bytes)])
  }

  function RecordText(r: Record): string {
    Braces([
      Pair("schema_version", "2"),
      Pair("command", QuotedText(r.command)),
      Pair("started_at_unix_ms", r.startedAtUnixMs),
      Pair("total_duration_ms", r.totalDurationMs),
      Pair("stages", Brackets(seq(|r.stages|, i requires 0 <= i < |r.stages| => StageText(r.stages[i])))),
      Pair("steps", Brackets(seq(|r.steps|, i requires 0 <= i < |r.steps| => StepText(r.steps[i])))),
      Pair("hit_miss", Brackets(seq(|r.hitMiss|, i requires 0 <= i < |r.hitMiss| => CounterText(r.hitMiss[i]))))
    ])
  }

  lemma HexDigit(n: nat)
    requires n < 16
    ensures Json.Hex(n) == "0123456789abcdef"[n]
  {
  }

  lemma QuotedIs(c: char)
    ensures Json.EscapeOne(c) == Quoted(c)
  {
    if c as int < 32 {
      HexDigit(c as int % 16);
      HexDigit(c as int / 16);
    }
  }

  lemma {:induction false} QuotedAllIs(s: string)
    ensures Json.Escape(s) == QuotedAll(s)
  {
    hide Json.EscapeOne, Quoted;
    if s != "" {
      QuotedIs(s[0]);
      QuotedAllIs(s[1..]);
    }
  }

  /** The names of the format have no special characters. */
  lemma {:induction false} PlainQuoted(s: string)
    requires forall i :: 0 <= i < |s| ==> s[i] as int >= 32 && s[i] != '"' && s[i] != '\\'
    ensures Json.Escape(s) == s
  {
    if s != "" {
      PlainQuoted(s[1..]);
      assert [s[0]] + s[1..] == s;
    }
  }

  ghost predicate PlainName(name: string) {
    forall i :: 0 <= i < |name| ==> name[i] as int >= 32 && name[i] != '"' && name[i] != '\\'
  }

  lemma FieldIs(f: Json.Field, text: string)
    requires PlainName(f.name) && Json.Text(f.value) == text
    ensures Json.FieldText(f) == Pair(f.name, text)
  {
    hide Json.Text;
    PlainQuoted(f.name);
    assert "\"" + f.name + "\"" + ":" == "\"" + f.name + "\":";
  }

  lemma {:induction false} FieldsAre(fields: seq<Json.Field>, texts: seq<string>)
    requires |fields| == |texts| && forall i :: 0 <= i < |fields| ==> Json.FieldText(fields[i]) == texts[i]
    ensures Json.FieldsText(fields) == Commas(texts)
  {
    hide Json.FieldText;
    if |fields| > 1 {
      FieldsAre(fields[1..], texts[1..]);
    }
  }

  /** An object with plain names. */
  lemma ObjectIs(fields: seq<Json.Field>, texts: seq<string>)
    requires |fields| == |texts|
    requires forall i :: 0 <= i < |fields| ==> PlainName(fields[i].name) && Json.Text(fields[i].value) == texts[i]
    ensures Json.Text(Json.Obj(fields))
         == Braces(seq(|fields|, i requires 0 <= i < |fields| => Pair(fields[i].name, texts[i])))
  {
    hide PlainName, Json.FieldText;
    forall i | 0 <= i < |fields|
      ensures Json.FieldText(fields[i]) == Pair(fields[i].name, texts[i])
    {
      FieldIs(fields[i], texts[i]);
    }
    FieldsAre(fields, seq(|fields|, i requires 0 <= i < |fields| => Pair(fields[i].name, texts[i])));
  }

  lemma NumberIs(text: string)
    ensures Json.Text(Json.Num(text)) == text
  {
  }

  lemma StringIs(s: string)
    ensures Json.Text(Json.Str(s)) == QuotedText(s)
  {
    QuotedAllIs(s);
  }

  lemma StageIs(s: StageDuration)
    ensures Json.Text(StageJson(s)) == StageText(s)
  {
    hide QuotedText, Pair, Braces, Json.Text;
    StringIs(s.name);
    NumberIs(s.durationMs);
    var fields, texts := StageJson(s).fields, [QuotedText(s.name), s.durationMs];
    ObjectIs(fields, texts);
    assert seq(|fields|, i requires 0 <= i < |fields| => Pair(fields[i].name, texts[i]))
        == [Pair("name", texts[0]), Pair("duration_ms", texts[1])];
  }

  lemma StepIs(s: StepDuration)
    ensures Json.Text(StepJson(s)) == StepText(s)
  {
    hide QuotedText, Pair, Braces, Json.Text;
    StringIs(s.job);
    StringIs(s.step);
    NumberIs(s.durationMs);
    var fields, texts := StepJson(s).fields, [QuotedText(s.job), QuotedText(s.step), s.durationMs];
    ObjectIs(fields, texts);
    assert seq(|fields|, i requires 0 <= i < |fields| => Pair(fields[i].name, texts[i]))
        == [Pair("job", texts[0]), Pair("step", texts[1]), Pair("duration_ms", texts[2])];
  }

  lemma CounterIs(c: HitMissCounter)
    ensures Json.Text(CounterJson(c)) == CounterText(c)
  {
    hide QuotedText, Pair, Braces, Json.Text;
    StringIs(c.name);
    NumberIs(c.hits);
    NumberIs(c.misses);
    NumberIs(c.bytes);
    var fields, texts := CounterJson(c).fields, [QuotedText(c.name), c.hits, c.misses, c.bytes];
    ObjectIs(fields, texts);
    assert seq(|fields|, i requires 0 <= i < |fields| => Pair(fields[i].name, texts[i]))
        == [Pair("name", texts[0]), Pair("hits", texts[1]), Pair("misses", texts[2]), Pair("bytes", texts[3])];
  }

  /** The texts of a list of values. */
  lemma {:induction false} ListIs(items: seq<Json.Json>, texts: seq<string>)
    requires |items| == |texts| && forall i :: 0 <= i < |items| ==> Json.Text(items[i]) == texts[i]
    ensures Json.ItemsText(items) == Commas(texts)
  {
    hide Json.Text;
    if |items| > 1 {
      ListIs(items[1..], texts[1..]);
    }
  }

  lemma ListsAre(r: Record)
    ensures Json.Text(Json.Arr(Mapped(r.stages, StageJson)))
         == Brackets(seq(|r.stages|, i requires 0 <= i < |r.stages| => StageText(r.stages[i])))
    ensures Json.Text(Json.Arr(Mapped(r.steps, StepJson)))
         == Brackets(seq(|r.steps|, i requires 0 <= i < |r.steps| => StepText(r.steps[i])))
    ensures Json.Text(Json.Arr(Mapped(r.hitMiss, CounterJson)))
         == Brackets(seq(|r.hitMiss|, i requires 0 <= i < |r.hitMiss| => CounterText(r.hitMiss[i])))
  {
    hide StageJson, StepJson, CounterJson, StageText, StepText, CounterText;
    forall s: StageDuration
      ensures Json.Text(StageJson(s)) == StageText(s)
    {
      StageIs(s);
    }
    forall s: StepDuration
      ensures Json.Text(StepJson(s)) == StepText(s)
    {
      StepIs(s);
    }
    forall c: HitMissCounter
      ensures Json.Text(CounterJson(c)) == CounterText(c)
    {
      CounterIs(c);
    }
    ListIs(Mapped(r.stages, StageJson), seq(|r.stages|, i requires 0 <= i < |r.stages| => StageText(r.stages[i])));
    ListIs(Mapped(r.steps, StepJson), seq(|r.steps|, i requires 0 <= i < |r.steps| => StepText(r.steps[i])));
    ListIs(Mapped(r.hitMiss, CounterJson),
           seq(|r.hitMiss|, i requires 0 <= i < |r.hitMiss| => CounterText(r.hitMiss[i])));
  }

  /** Field names, their order, and the version number of a stored record. */
  lemma RecordIs(r: Record)
    ensures Encode(r) == RecordText(r)
  {
    hide QuotedText, Pair, Braces, Brackets, Json.Text, Mapped, StageText, StepText, CounterText;
    ListsAre(r);
    StringIs(r.command);
    NumberIs("2");
    NumberIs(r.startedAtUnixMs);
    NumberIs(r.totalDurationMs);
    var fields := RecordFields(r);
    var texts := [
      "2", QuotedText(r.command), r.startedAtUnixMs, r.totalDurationMs,
      Brackets(seq(|r.stages|, i requires 0 <= i < |r.stages| => StageText(r.stages[i]))),
      Brackets(seq(|r.steps|, i requires 0 <= i < |r.steps| => StepText(r.steps[i]))),
      Brackets(seq(|r.hitMiss|, i requires 0 <= i < |r.hitMiss| => CounterText(r.hitMiss[i])))];
    RecordNamesPlain(r);
    ObjectIs(fields, texts);
    assert seq(|fields|, i requires 0 <= i < |fields| => Pair(fields[i].name, texts[i]))
        == [Pair("schema_version", texts[0]), Pair("command", texts[1]), Pair("started_at_unix_ms", texts[2]),
            Pair("total_duration_ms", texts[3]), Pair("stages", texts[4]), Pair("steps", texts[5]),
            Pair("hit_miss", texts[6])];
  }

  lemma RecordNamesPlain(r: Record)
    ensures forall i :: 0 <= i < 7 ==> PlainName(RecordFields(r)[i].name)
  {
    hide Mapped, PlainName;
    NumberNamesPlain();
    ListNamesPlain();
    var f := RecordFields(r);
    assert f[0].name == "schema_version" && f[1].name == "command" && f[2].name == "started_at_unix_ms";
    assert f[3].name == "total_duration_ms" && f[4].name == "stages" && f[5].name == "steps";
    assert f[6].name == "hit_miss";
  }

  lemma NumberNamesPlain()
    ensures PlainName("schema_version") && PlainName("started_at_unix_ms") && PlainName("total_duration_ms")
  {
  }

  lemma ListNamesPlain()
    ensures PlainName("command") && PlainName("stages") && PlainName("steps") && PlainName("hit_miss")
  {
  }

  // ----- the lines of a file

  ghost predicate Space(c: char) {
    c in {' ', '\t', '\r', '\U{000C}'}
  }

  ghost predicate Spaces(s: string) {
    forall i :: 0 <= i < |s| ==> Space(s[i])
  }

  /** A line: what it says, and the spaces around that. */
  datatype FileLine = FileLine(before: string, body: string, after: string)

  function LineText(l: FileLine): string {
    l.before + l.body + l.after
  }

  ghost predicate IsLine(l: FileLine) {
    && Spaces(l.before) && Spaces(l.after) && '\n' !in l.body
    && (l.body != "" ==> !Space(l.body[0]) && !Space(l.body[|l.body| - 1]))
    && |LineText(l)| <= 8_388_608
  }

  function FileText(lines: seq<FileLine>): string {
    if lines == [] then "" else LineText(lines[0]) + "\n" + FileText(lines[1..])
  }

  /** Every line is blank or a record. */
  ghost predicate AreStored(lines: seq<FileLine>) {
    forall i :: 0 <= i < |lines| ==> IsLine(lines[i]) && (lines[i].body == "" || Decode(lines[i].body).Good?)
  }

  ghost function RecordsIn(lines: seq<FileLine>): seq<Record>
    requires AreStored(lines)
  {
    if lines == [] then []
    else (if lines[0].body == "" then [] else [Decode(lines[0].body).record]) + RecordsIn(lines[1..])
  }

  lemma {:induction false} TrimFront(before: string, rest: string)
    requires Spaces(before)
    ensures MetricsLog.TrimStart(before + rest) == MetricsLog.TrimStart(rest)
  {
    if before == "" {
      assert before + rest == rest;
    } else {
      assert (before + rest)[1..] == before[1..] + rest;
      TrimFront(before[1..], rest);
    }
  }

  lemma {:induction false} TrimBack(front: string, after: string)
    requires forall i :: 0 <= i < |after| ==> Space(after[i]) || after[i] == '\n'
    ensures TrimEnd(front + after) == TrimEnd(front)
    decreases |after|
  {
    if after == "" {
      assert front + after == front;
    } else {
      var n := |after| - 1;
      assert (front + after)[..|front + after| - 1] == front + after[..n];
      TrimBack(front, after[..n]);
    }
  }

  lemma {:induction false} TrimAll(s: string)
    requires forall i :: 0 <= i < |s| ==> Space(s[i]) || s[i] == '\n'
    ensures MetricsLog.TrimStart(s) == ""
  {
    if s != "" {
      TrimAll(s[1..]);
    }
  }

  /** The reader looks at what a line says. */
  lemma TrimmedLine(l: FileLine, end: string)
    requires IsLine(l) && (end == "" || end == "\n")
    ensures Trim(LineText(l) + end) == l.body
  {
    var rest := l.body + (l.after + end);
    TrimFront(l.before, rest);
    assert LineText(l) + end == l.before + rest;
    if l.body == "" {
      assert rest == l.after + end;
      TrimAll(rest);
    } else {
      SolidLine(l.body, l.after + end);
      assert MetricsLog.TrimStart(rest) == rest;
      TrimBack(l.body, l.after + end);
      assert TrimEnd(l.body) == l.body;
    }
  }

  lemma SolidLine(body: string, end: string)
    requires body != "" && '\n' !in body && !Space(body[0]) && !Space(body[|body| - 1])
    ensures !IsSpace((body + end)[0]) && !IsSpace(body[|body| - 1])
  {
  }

  lemma NoBreak(l: FileLine)
    requires IsLine(l)
    ensures '\n' !in LineText(l)
  {
  }

  /** A terminated line of a file. */
  lemma ReadTerminated(l: FileLine, rest: string, n: nat)
    requires IsLine(l)
    ensures ReadLines(LineText(l) + "\n" + rest, n) ==
              match ReadLine(l.body, true, n)
              case Skip => ReadLines(rest, n + 1)
              case Got(r) => Prepend(r, ReadLines(rest, n + 1))
              case Stop(result) => result
  {
    hide ReadLines, ReadLine, Trim, LineEnd, IsLine, LineText;
    var text := LineText(l);
    var data := text + "\n" + rest;
    NoBreak(l);
    assert data[..|text|] == text;
    LineEndUnique(data, |text|);
    ReadStep(data, n);
    assert data[..|text| + 1] == text + "\n";
    assert data[|text| + 1..] == rest;
    TrimmedLine(l, "\n");
    Short(l);
  }

  lemma Short(l: FileLine)
    requires IsLine(l)
    ensures |LineText(l)| <= MAX_RECORD_BYTES
  {
  }

  lemma {:induction false} ReadStored(lines: seq<FileLine>, rest: string, n: nat)
    requires AreStored(lines)
    ensures ReadLines(FileText(lines) + rest, n) == Joined(RecordsIn(lines), ReadLines(rest, n + |lines|))
    decreases |lines|
  {
    hide ReadLines, Decode, IsLine, LineText;
    if lines == [] {
      assert FileText(lines) + rest == rest;
      JoinedNothing(ReadLines(rest, n));
    } else {
      ReadStored(lines[1..], rest, n + 1);
      ReadTerminated(lines[0], FileText(lines[1..]) + rest, n);
      assert FileText(lines) + rest == LineText(lines[0]) + "\n" + (FileText(lines[1..]) + rest);
      var more := ReadLines(rest, n + |lines|);
      if lines[0].body != "" {
        JoinedFront(Decode(lines[0].body).record, RecordsIn(lines[1..]), more);
      } else {
        assert [] + RecordsIn(lines[1..]) == RecordsIn(lines[1..]);
      }
    }
  }

  // ----- what stops the reader

  /** Text that is no JSON document. */
  ghost predicate NoDocument(text: string) {
    text != "" && Json.ParseDocument(text).None?
  }

  lemma NoDocumentIsCorrupt(text: string)
    requires NoDocument(text)
    ensures Decode(text) == Corrupt
  {
    hide Json.ParseDocument, RecordOf;
  }

  /** After stored lines, a terminated line that is no document is reported by its number. */
  lemma CorruptLineReported(lines: seq<FileLine>, bad: FileLine, rest: string)
    requires AreStored(lines) && IsLine(bad) && NoDocument(bad.body)
    ensures ReadLines(FileText(lines) + LineText(bad) + "\n" + rest, 1) == Err(CorruptRecord(|lines| + 1))
  {
    hide ReadLines, Decode, IsLine, LineText, AreStored;
    var tail := LineText(bad) + "\n" + rest;
    assert FileText(lines) + LineText(bad) + "\n" + rest == FileText(lines) + tail;
    ReadStored(lines, tail, 1);
    ReadTerminated(bad, rest, 1 + |lines|);
    NoDocumentIsCorrupt(bad.body);
  }

  /** Without its newline the same text is a torn append, and is ignored. */
  lemma TornTailIgnored(lines: seq<FileLine>, torn: FileLine)
    requires AreStored(lines) && IsLine(torn) && (torn.body == "" || NoDocument(torn.body))
    ensures ReadLines(FileText(lines) + LineText(torn), 1) == Ok(RecordsIn(lines))
  {
    hide ReadLines, Decode, IsLine, LineText, AreStored;
    ReadStored(lines, LineText(torn), 1);
    ReadUnterminated(torn, 1 + |lines|);
    if torn.body != "" {
      NoDocumentIsCorrupt(torn.body);
    }
    assert RecordsIn(lines) + [] == RecordsIn(lines);
  }

  lemma ReadUnterminated(l: FileLine, n: nat)
    requires IsLine(l)
    ensures ReadLines(LineText(l), n) ==
              match ReadLine(l.body, false, n)
              case Skip => Ok([])
              case Got(r) => Ok([r])
              case Stop(result) => result
  {
    hide ReadLines, Trim, LineEnd, IsLine, LineText, Decode;
    var text := LineText(l);
    ReadStep("", n + 1);
    if text == "" {
      ReadStep(text, n);
      EmptyBody(l);
    } else {
      NoBreak(l);
      assert text[..|text|] == text;
      LineEndUnique(text, |text|);
      ReadStep(text, n);
      TrimmedLine(l, "");
      assert text + "" == text;
      Short(l);
      match ReadLine(l.body, false, n)
      case Got(r) => assert [r] + [] == [r];
      case _ =>
    }
  }

  lemma EmptyBody(l: FileLine)
    requires LineText(l) == ""
    ensures l.body == ""
  {
    assert |LineText(l)| == |l.before| + |l.body| + |l.after|;
  }

  /** A document whose only version field is a number other than 2. */
  ghost predicate OtherVersion(fields: seq<Json.Field>, version: NaturalText, i: nat) {
    && i < |fields| && fields[i] == Json.Field("schema_version", Json.Num(version)) && version != "2"
    && (forall k :: 0 <= k < |fields| && k != i ==> fields[k].name != "schema_version")
    && forall k :: 0 <= k < |fields| ==> Json.WellFormed(fields[k].value)
  }

  lemma {:induction false} FindOnly(fields: seq<Json.Field>, name: string, i: nat)
    requires i < |fields| && fields[i].name == name
    requires forall k :: 0 <= k < |fields| && k != i ==> fields[k].name != name
    ensures Find(fields, name) == Some(fields[i].value)
    decreases i
  {
    if i > 0 {
      FindOnly(fields[1..], name, i - 1);
    }
  }

  /** After stored lines, a document of another version is reported with its number, whether or not
      it still has its newline. */
  lemma OtherVersionReported(lines: seq<FileLine>, l: FileLine, rest: string, fields: seq<Json.Field>,
                             version: NaturalText, i: nat)
    requires AreStored(lines) && IsLine(l) && OtherVersion(fields, version, i) && l.body == Json.Text(Json.Obj(fields))
    ensures ReadLines(FileText(lines) + LineText(l) + "\n" + rest, 1) == Err(UnsupportedSchema(|lines| + 1, version))
    ensures ReadLines(FileText(lines) + LineText(l), 1) == Err(UnsupportedSchema(|lines| + 1, version))
  {
    hide ReadLines, Decode, IsLine, LineText, AreStored, Json.Text, OtherVersion;
    var tail := LineText(l) + "\n" + rest;
    assert FileText(lines) + LineText(l) + "\n" + rest == FileText(lines) + tail;
    OtherVersionDecodes(fields, version, i);
    ReadStored(lines, tail, 1);
    ReadStored(lines, LineText(l), 1);
    ReadTerminated(l, rest, 1 + |lines|);
    ReadUnterminated(l, 1 + |lines|);
  }

  lemma OtherVersionDecodes(fields: seq<Json.Field>, version: NaturalText, i: nat)
    requires OtherVersion(fields, version, i)
    ensures Json.Text(Json.Obj(fields)) != "" && Decode(Json.Text(Json.Obj(fields))) == Unsupported(version)
  {
    hide Json.ParseDocument, RecordOf, Json.FieldsText, Json.IsNumber, Json.Digits, Find;
    FindOnly(fields, "schema_version", i);
    Json.DocumentReads(Json.Obj(fields));
  }

  /** A line over eight mebibytes is refused, with or without its newline. */
  lemma LongLineRefused(lines: seq<FileLine>, long: string, rest: string)
    requires AreStored(lines) && '\n' !in long && |long| > 8_388_608
    ensures ReadLines(FileText(lines) + long + "\n" + rest, 1) == Err(RecordReadLimit)
    ensures ReadLines(FileText(lines) + long, 1) == Err(RecordReadLimit)
  {
    hide ReadLines, ReadLine, Trim, LineEnd, AreStored;
    var tail := long + "\n" + rest;
    assert FileText(lines) + long + "\n" + rest == FileText(lines) + tail;
    ReadStored(lines, tail, 1);
    ReadStored(lines, long, 1);
    assert tail[..|long|] == long;
    LineEndUnique(tail, |long|);
    LineEndUnique(long, |long|);
    ReadStep(tail, 1 + |lines|);
    ReadStep(long, 1 + |lines|);
  }

  // ----- the repair of the last line

  /** What is committed, and what stands after the last newline. */
  ghost predicate EndsWith(data: string, committed: string, tail: string) {
    && data == committed + tail && '\n' !in tail
    && (committed == "" || committed[|committed| - 1] == '\n')
  }

  /** Nothing is cut that is a whole document of at most eight mebibytes; everything else after the
      last newline is; and where no newline is in reach the file is left alone. */
  lemma RepairTable(data: string, committed: string, tail: string)
    requires EndsWith(data, committed, tail)
    ensures Repair(data) ==
              if |tail| > 8_388_609 && |data| > 8_388_610 then None
              else if tail == "" then Some(Repaired(data, false))
              else if |tail| > 8_388_608 then Some(Repaired(committed, false))
              else if Json.ParseDocument(tail).Some? then Some(Repaired(data, true))
              else Some(Repaired(committed, false))
  {
    hide Json.ParseDocument, LastLineStart;
    assert data[|committed|..] == tail;
    assert data[..|committed|] == committed;
    LastLineUnique(data, |committed|);
  }
}
