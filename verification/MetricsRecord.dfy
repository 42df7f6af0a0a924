/** One metrics record as a line of JSON: its shape, its schema version, and its decoding. */
module MetricsRecord {
  import opened Common
  import opened Json

  type NumberText = s: string | IsNumber(s) witness "0"
  type NaturalText = s: string | IsNumber(s) && Digits(s) == |s| witness "0"

  datatype StageDuration = StageDuration(name: string, durationMs: NumberText)

  datatype StepDuration = StepDuration(job: string, step: string, durationMs: NumberText)

  datatype HitMissCounter = HitMissCounter(name: string, hits: NaturalText, misses: NaturalText, bytes: NaturalText)

  datatype Record = Record(
    command: string, startedAtUnixMs: NaturalText, totalDurationMs: NumberText,
    stages: seq<StageDuration>, steps: seq<StepDuration>, hitMiss: seq<HitMissCounter>)

  const SCHEMA_VERSION: string := "2"

  // ----- writing

  function StageJson(s: StageDuration): Json {
    Obj([Field("name", Str(s.name)), Field("duration_ms", Num(s.durationMs))])
  }

  function StepJson(s: StepDuration): Json {
    Obj([Field("job", Str(s.job)), Field("step", Str(s.step)), Field("duration_ms", Num(s.durationMs))])
  }

  function CounterJson(c: HitMissCounter): Json {
    Obj([Field("name", Str(c.name)), Field("hits", Num(c.hits)), Field("misses", Num(c.misses)),
         Field("bytes", Num(c.bytes))])
  }

  function Mapped<T>(xs: seq<T>, f: T -> Json): (r: seq<Json>)
    ensures |r| == |xs| && forall i :: 0 <= i < |xs| ==> r[i] == f(xs[i])
  {
    seq(|xs|, i requires 0 <= i < |xs| => f(xs[i]))
  }

  function RecordFields(r: Record): seq<Field> {
    [Field("schema_version", Num(SCHEMA_VERSION)),
     Field("command", Str(r.command)),
     Field("started_at_unix_ms", Num(r.startedAtUnixMs)),
     Field("total_duration_ms", Num(r.totalDurationMs)),
     Field("stages", Arr(Mapped(r.stages, StageJson))),
     Field("steps", Arr(Mapped(r.steps, StepJson))),
     Field("hit_miss", Arr(Mapped(r.hitMiss, CounterJson)))]
  }

  function Encode(r: Record): string {
    Text(Obj(RecordFields(r)))
  }

  // ----- reading

  predicate Named(fields: seq<Field>, name: string) {
    exists i :: 0 <= i < |fields| && fields[i].name == name
  }

  /** The value of the only field with a name; fields with other names are ignored. */
  function Find(fields: seq<Field>, name: string): Option<Json> {
    if fields == [] then None
    else if fields[0].name != name then Find(fields[1..], name)
    else if Named(fields[1..], name) then None
    else Some(fields[0].value)
  }

  function FieldOf(j: Json, name: string): Option<Json> {
    if j.Obj? then Find(j.fields, name) else None
  }

  function AsString(j: Option<Json>): Option<string> {
    if j.Some? && j.value.Str? then Some(j.value.s) else None
  }

  function AsNumber(j: Option<Json>): Option<NumberText> {
    if j.Some? && j.value.Num? && IsNumber(j.value.text) then Some(j.value.text) else None
  }

  function AsNatural(j: Option<Json>): Option<NaturalText> {
    var number := AsNumber(j);
    if number.Some? && Digits(number.value) == |number.value| then Some(number.value) else None
  }

  function AsList<T>(j: Option<Json>, f: Json -> Option<T>): Option<seq<T>> {
    if j.Some? && j.value.Arr? then All(j.value.items, f) else None
  }

  function All<T>(items: seq<Json>, f: Json -> Option<T>): Option<seq<T>> {
    if items == [] then Some([])
    else
      var first, rest := f(items[0]), All(items[1..], f);
      if first.None? || rest.None? then None else Some([first.value] + rest.value)
  }

  function StageOf(j: Json): Option<StageDuration> {
    var name, ms := AsString(FieldOf(j, "name")), AsNumber(FieldOf(j, "duration_ms"));
    if name.None? || ms.None? then None else Some(StageDuration(name.value, ms.value))
  }

  function StepOf(j: Json): Option<StepDuration> {
    var job, step, ms := AsString(FieldOf(j, "job")), AsString(FieldOf(j, "step")), AsNumber(FieldOf(j, "duration_ms"));
    if job.None? || step.None? || ms.None? then None else Some(StepDuration(job.value, step.value, ms.value))
  }

  function CounterOf(j: Json): Option<HitMissCounter> {
    var name, hits := AsString(FieldOf(j, "name")), AsNatural(FieldOf(j, "hits"));
    var misses, bytes := AsNatural(FieldOf(j, "misses")), AsNatural(FieldOf(j, "bytes"));
    if name.None? || hits.None? || misses.None? || bytes.None? then None
    else Some(HitMissCounter(name.value, hits.value, misses.value, bytes.value))
  }

  function RecordOf(j: Json): Option<Record> {
    var command, started := AsString(FieldOf(j, "command")), AsNatural(FieldOf(j, "started_at_unix_ms"));
    var total := AsNumber(FieldOf(j, "total_duration_ms"));
    var stages, steps := AsList(FieldOf(j, "stages"), StageOf), AsList(FieldOf(j, "steps"), StepOf);
    var hitMiss := AsList(FieldOf(j, "hit_miss"), CounterOf);
    if command.None? || started.None? || total.None? || stages.None? || steps.None? || hitMiss.None? then None
    else Some(Record(command.value, started.value, total.value, stages.value, steps.value, hitMiss.value))
  }

  datatype Decoded = Good(record: Record) | Unsupported(version: string) | Corrupt

  /** The schema version is looked at before the rest. */
  function Decode(s: string): Decoded {
    var document := ParseDocument(s);
    if document.None? then Corrupt
    else
      var version := AsNatural(FieldOf(document.value, "schema_version"));
      if version.None? then Corrupt
      else if version.value != SCHEMA_VERSION then Unsupported(version.value)
      else
        var record := RecordOf(document.value);
        if record.None? then Corrupt else Good(record.value)
  }

  // ----- the round trip

  ghost predicate DistinctNames(fields: seq<Field>) {
    forall i, j :: 0 <= i < j < |fields| ==> fields[i].name != fields[j].name
  }

  lemma {:induction false} FindAt(fields: seq<Field>, i: nat)
    requires i < |fields| && DistinctNames(fields)
    ensures Find(fields, fields[i].name) == Some(fields[i].value)
    decreases |fields|
  {
    if i == 0 {
      assert forall k :: 0 <= k < |fields[1..]| ==> fields[1..][k].name == fields[1 + k].name;
    } else {
      FindAt(fields[1..], i - 1);
    }
  }

  lemma {:induction false} AllBack<T>(xs: seq<T>, to: T -> Json, from: Json -> Option<T>)
    requires forall i :: 0 <= i < |xs| ==> from(to(xs[i])) == Some(xs[i])
    ensures All(Mapped(xs, to), from) == Some(xs)
    decreases |xs|
  {
    if xs != [] {
      AllBack(xs[1..], to, from);
      assert Mapped(xs, to)[1..] == Mapped(xs[1..], to);
      assert [xs[0]] + xs[1..] == xs;
    }
  }

  lemma StageBack(s: StageDuration)
    ensures StageOf(StageJson(s)) == Some(s) && WellFormed(StageJson(s))
  {
    hide IsNumber, Find;
    var fields := StageJson(s).fields;
    FindAt(fields, 0);
    FindAt(fields, 1);
  }

  lemma StepBack(s: StepDuration)
    ensures StepOf(StepJson(s)) == Some(s) && WellFormed(StepJson(s))
  {
    hide IsNumber, Find;
    var fields := StepJson(s).fields;
    FindAt(fields, 0);
    FindAt(fields, 1);
    FindAt(fields, 2);
  }

  lemma CounterBack(c: HitMissCounter)
    ensures CounterOf(CounterJson(c)) == Some(c) && WellFormed(CounterJson(c))
  {
    hide IsNumber, Find, Digits;
    var fields := CounterJson(c).fields;
    FindAt(fields, 0);
    FindAt(fields, 1);
    FindAt(fields, 2);
    FindAt(fields, 3);
  }

  lemma RecordNames(r: Record)
    ensures DistinctNames(RecordFields(r))
  {
  }

  lemma ListsBack(r: Record)
    ensures All(Mapped(r.stages, StageJson), StageOf) == Some(r.stages)
    ensures All(Mapped(r.steps, StepJson), StepOf) == Some(r.steps)
    ensures All(Mapped(r.hitMiss, CounterJson), CounterOf) == Some(r.hitMiss)
    ensures forall i :: 0 <= i < |RecordFields(r)| ==> WellFormed(RecordFields(r)[i].value)
  {
    hide All, StageOf, StageJson, StepOf, StepJson, CounterOf, CounterJson, IsNumber;
    forall i | 0 <= i < |r.stages|
      ensures StageOf(StageJson(r.stages[i])) == Some(r.stages[i]) && WellFormed(StageJson(r.stages[i]))
    {
      StageBack(r.stages[i]);
    }
    forall i | 0 <= i < |r.steps|
      ensures StepOf(StepJson(r.steps[i])) == Some(r.steps[i]) && WellFormed(StepJson(r.steps[i]))
    {
      StepBack(r.steps[i]);
    }
    forall i | 0 <= i < |r.hitMiss|
      ensures CounterOf(CounterJson(r.hitMiss[i])) == Some(r.hitMiss[i]) && WellFormed(CounterJson(r.hitMiss[i]))
    {
      CounterBack(r.hitMiss[i]);
    }
    AllBack(r.stages, StageJson, StageOf);
    AllBack(r.steps, StepJson, StepOf);
    AllBack(r.hitMiss, CounterJson, CounterOf);
    VersionIsNumber();
  }

  lemma VersionIsNumber()
    ensures IsNumber(SCHEMA_VERSION) && Digits(SCHEMA_VERSION) == |SCHEMA_VERSION|
  {
    assert SCHEMA_VERSION[1..] == "";
  }

  lemma FieldsBack(r: Record)
    ensures RecordOf(Obj(RecordFields(r))) == Some(r)
    ensures FieldOf(Obj(RecordFields(r)), "schema_version") == Some(Num(SCHEMA_VERSION))
  {
    hide IsNumber, Find, Digits, All, DistinctNames;
    var fields := RecordFields(r);
    RecordNames(r);
    ListsBack(r);
    FindAt(fields, 0);
    FindAt(fields, 1);
    FindAt(fields, 2);
    FindAt(fields, 3);
    FindAt(fields, 4);
    FindAt(fields, 5);
    FindAt(fields, 6);
  }

  /** Every record reads back from its line. */
  lemma RoundTrip(r: Record)
    ensures Decode(Encode(r)) == Good(r)
  {
    hide ParseDocument, RecordOf, RecordFields, Text, IsNumber, Digits, FieldOf;
    ListsBack(r);
    FieldsBack(r);
    VersionIsNumber();
    DocumentReads(Obj(RecordFields(r)));
  }

  /** The torn front of a line is not a complete value, whatever the record. */
  lemma PrefixCorrupt(r: Record, k: nat)
    requires k < |Encode(r)|
    ensures ParseDocument(Encode(r)[..k]) == None
  {
    hide ParseDocument, RecordFields, Text;
    ListsBack(r);
    DocumentCut(Obj(RecordFields(r)), k);
  }

  // ----- one line

  lemma {:induction false} EscapeNoNewline(s: string)
    ensures '\n' !in Escape(s)
  {
    if s != "" {
      EscapeNoNewline(s[1..]);
    }
  }

  lemma {:induction false} NumberNoNewline(s: string)
    requires NumberRun(s) == |s|
    ensures '\n' !in s
  {
    if s != "" {
      NumberNoNewline(s[1..]);
      assert s == [s[0]] + s[1..];
    }
  }

  lemma {:induction false} TextNoNewline(j: Json)
    requires WellFormed(j)
    ensures '\n' !in Text(j)
    decreases j, 0
  {
    hide IsNumber;
    match j
    case Num(text) =>
      NumberIsRun(text);
      NumberNoNewline(text);
    case Str(s) => EscapeNoNewline(s);
    case Arr(items) => ItemsNoNewline(items);
    case Obj(fields) => FieldsNoNewline(fields);
    case _ =>
  }

  lemma {:induction false} ItemsNoNewline(items: seq<Json>)
    requires forall i :: 0 <= i < |items| ==> WellFormed(items[i])
    ensures '\n' !in ItemsText(items)
    decreases items, 1
  {
    hide IsNumber, Text;
    if items != [] {
      TextNoNewline(items[0]);
      ItemsNoNewline(items[1..]);
    }
  }

  lemma {:induction false} FieldsNoNewline(fields: seq<Field>)
    requires forall i :: 0 <= i < |fields| ==> WellFormed(fields[i].value)
    ensures '\n' !in FieldsText(fields)
    decreases fields, 1
  {
    hide IsNumber, Text;
    if fields != [] {
      EscapeNoNewline(fields[0].name);
      TextNoNewline(fields[0].value);
      FieldsNoNewline(fields[1..]);
    }
  }

  lemma EncodeShape(r: Record)
    ensures |Encode(r)| > 0 && Encode(r)[0] == '{' && Encode(r)[|Encode(r)| - 1] == '}' && '\n' !in Encode(r)
  {
    hide RecordFields, IsNumber;
    ListsBack(r);
    TextNoNewline(Obj(RecordFields(r)));
  }

  /** Some record. */
  const EMPTY: Record := Record("", "0", "0", [], [], [])
}
