/** The append-only metrics log: writer, tail repair and reader, under crashes that cut a
    write short after any byte.  A character stands for one byte. */
module MetricsLog {
  import opened Common
  import opened MetricsRecord
  import Json

  const MAX_RECORD_BYTES: nat := 8 * 1024 * 1024
  const SCAN_CHUNK_BYTES: nat := 8 * 1024
  const TAIL_SCAN_SLACK_BYTES: nat := 2

  datatype LogError =
    | RecordWriteLimit
    | RecordReadLimit
    | CorruptRecord(line: nat)
    | UnsupportedSchema(line: nat, found: string)

  // ----- trimming a line

  predicate IsSpace(c: char) {
    c == ' ' || c == '\t' || c == '\n' || c == '\r' || c == '\U{000C}'
  }

  function TrimStart(s: string): string {
    if s != "" && IsSpace(s[0]) then TrimStart(s[1..]) else s
  }

  function TrimEnd(s: string): (r: string)
    ensures |r| <= |s| && r == s[..|r|]
  {
    if s != "" && IsSpace(s[|s| - 1]) then TrimEnd(s[..|s| - 1]) else s
  }

  function Trim(s: string): string {
    TrimEnd(TrimStart(s))
  }

  lemma {:induction false} TrimPrefix(r: Record, k: nat)
    requires 0 < k <= |Encode(r)|
    ensures exists j :: 0 < j <= k && Trim(Encode(r)[..k]) == Encode(r)[..j] && (k == |Encode(r)| ==> j == k)
  {
    EncodeShape(r);
    var s := Encode(r)[..k];
    assert TrimStart(s) == s;
    TrimEndKeepsFirst(s);
    var j := |Trim(s)|;
    assert Trim(s) == s[..j] == Encode(r)[..j];
    if k == |Encode(r)| {
      assert s == Encode(r);
      assert TrimEnd(s) == s;
    }
  }

  lemma {:induction false} TrimEndKeepsFirst(s: string)
    requires s != "" && !IsSpace(s[0])
    ensures |TrimEnd(s)| > 0
    decreases |s|
  {
    if IsSpace(s[|s| - 1]) {
      TrimEndKeepsFirst(s[..|s| - 1]);
    }
  }

  // ----- finding the last line

  /** Just after the last newline, or the start of the file. */
  function LastLineStart(data: string): (t: nat)
    ensures t <= |data| && '\n' !in data[t..]
    ensures t > 0 ==> data[t - 1] == '\n'
  {
    if data == "" then 0
    else
      var last := |data| - 1;
      if data[last] == '\n' then |data|
      else
        var t := LastLineStart(data[..last]);
        assert data[t..] == data[..last][t..] + [data[last]];
        t
  }

  lemma {:induction false} LastLineUnique(data: string, t: nat)
    requires t <= |data| && '\n' !in data[t..] && (t > 0 ==> data[t - 1] == '\n')
    ensures LastLineStart(data) == t
  {
    NoneInside(data, LastLineStart(data), |data|);
    NoneInside(data, t, |data|);
  }

  lemma {:induction false} NoneInside(s: string, lo: nat, hi: nat)
    requires lo <= hi <= |s| && '\n' !in s[lo..hi]
    ensures forall i :: lo <= i < hi ==> s[i] != '\n'
  {
    forall i | lo <= i < hi
      ensures s[i] != '\n'
    {
      assert s[i] == s[lo..hi][i - lo];
    }
  }

  /** How far back the scan looks. */
  function ScanFloor(length: nat): nat {
    if length > MAX_RECORD_BYTES + TAIL_SCAN_SLACK_BYTES then length - (MAX_RECORD_BYTES + TAIL_SCAN_SLACK_BYTES) else 0
  }

  function TailStart(data: string): Option<nat> {
    var floor := ScanFloor(|data|);
    if floor == 0 || LastLineStart(data) > floor then Some(LastLineStart(data)) else None
  }

  method RPosition(buffer: string) returns (index: Option<nat>)
    ensures match index
            case Some(i) => i < |buffer| && buffer[i] == '\n' && '\n' !in buffer[i + 1..]
            case None => '\n' !in buffer
  {
    var i: nat := |buffer|;
    while i > 0
      invariant i <= |buffer| && '\n' !in buffer[i..]
    {
      i := i - 1;
      if buffer[i] == '\n' {
        return Some(i);
      }
      assert buffer[i..] == [buffer[i]] + buffer[i + 1..];
    }
    assert buffer[0..] == buffer;
    return None;
  }

  /** Scans the file backwards in chunks, giving up once the window is exhausted. */
  method FindTailStart(data: string) returns (start: Option<nat>)
    ensures start == TailStart(data)
  {
    hide LastLineStart;
    var cursor := |data|;
    var floor := ScanFloor(|data|);
    while cursor > floor
      invariant floor <= cursor <= |data| && '\n' !in data[cursor..]
    {
      var count := if cursor - floor < SCAN_CHUNK_BYTES then cursor - floor else SCAN_CHUNK_BYTES;
      var end := cursor;
      cursor := cursor - count;
      var index := RPosition(data[cursor..end]);
      match index
      case Some(i) =>
        ChunkHit(data, cursor, end, data[cursor..end], i);
        return Some(cursor + i + 1);
      case None =>
        assert data[cursor..] == data[cursor..end] + data[end..];
    }
    WindowEmpty(data, floor);
    if floor == 0 {
      return Some(0);
    }
    return None;
  }

  lemma {:induction false} ChunkHit(data: string, cursor: nat, end: nat, chunk: string, i: nat)
    requires cursor <= end <= |data| && '\n' !in data[end..]
    requires chunk == data[cursor..end] && i < |chunk| && chunk[i] == '\n' && '\n' !in chunk[i + 1..]
    ensures LastLineStart(data) == cursor + i + 1
  {
    hide LastLineStart;
    var start := cursor + i + 1;
    assert data[start - 1] == '\n' by { assert data[start - 1] == chunk[i]; }
    assert chunk[i + 1..] == data[start..end];
    NoneJoin(data, start, end);
    LastLineUnique(data, start);
  }

  lemma {:induction false} NoneJoin(s: string, a: nat, b: nat)
    requires a <= b <= |s| && '\n' !in s[a..b] && '\n' !in s[b..]
    ensures '\n' !in s[a..]
  {
    assert s[a..] == s[a..b] + s[b..];
  }

  lemma {:induction false} WindowEmpty(data: string, floor: nat)
    requires floor <= |data| && '\n' !in data[floor..]
    ensures LastLineStart(data) <= floor
  {
    NoneInside(data, floor, |data|);
  }

  // ----- the reader

  /** Where the first line of `rest` ends, newline excluded. */
  function LineEnd(rest: string): (e: nat)
    ensures e <= |rest| && '\n' !in rest[..e] && (e < |rest| ==> rest[e] == '\n')
  {
    if rest == "" || rest[0] == '\n' then 0
    else
      var e := LineEnd(rest[1..]) + 1;
      assert rest[..e] == [rest[0]] + rest[1..][..e - 1];
      e
  }

  lemma {:induction false} LineEndUnique(rest: string, e: nat)
    requires e <= |rest| && '\n' !in rest[..e] && (e < |rest| ==> rest[e] == '\n')
    ensures LineEnd(rest) == e
  {
    NoneInside(rest, 0, e);
    NoneInside(rest, 0, LineEnd(rest));
  }

  /** What reading lines from number `line` on yields: every line is at most the limit and is
      blank or a record of this schema; only an unterminated last line may be malformed. */
  function ReadLines(rest: string, line: nat): Result<seq<Record>, LogError>
    decreases |rest|
  {
    if rest == "" then Ok([])
    else
      var e := LineEnd(rest);
      var terminated := e < |rest|;
      var next := if terminated then rest[e + 1..] else "";
      var content := Trim(if terminated then rest[..e + 1] else rest);
      if e > MAX_RECORD_BYTES then Err(RecordReadLimit)
      else
        match ReadLine(content, terminated, line)
        case Skip => ReadLines(next, line + 1)
        case Got(r) => Prepend(r, ReadLines(next, line + 1))
        case Stop(result) => result
  }

  datatype LineRead = Skip | Got(record: Record) | Stop(result: Result<seq<Record>, LogError>)

  /** What one trimmed line means: only an unterminated fragment can be a torn append. */
  function ReadLine(content: string, terminated: bool, line: nat): (r: LineRead)
    ensures r.Stop? ==> r.result.Err? || r.result.value == []
  {
    if content == "" then Skip
    else
      match Decode(content)
      case Good(r) => Got(r)
      case Corrupt => Stop(if terminated then Err(CorruptRecord(line)) else Ok([]))
      case Unsupported(v) => Stop(Err(UnsupportedSchema(line, v)))
  }

  /** Reads through the next newline, but never more than one byte over the limit. */
  method ReadBoundedLine(data: string, from: nat) returns (line: Result<string, LogError>)
    requires from <= |data|
    ensures var rest := data[from..];
            var e := LineEnd(rest);
            line == if e > MAX_RECORD_BYTES then Err(RecordReadLimit)
                    else Ok(if e < |rest| then rest[..e + 1] else rest)
  {
    hide LineEnd;
    var limit := MAX_RECORD_BYTES + 1;
    var rest := data[from..];
    var n := 0;
    while n < |rest| && n < limit && rest[n] != '\n'
      invariant n <= |rest| && n <= limit && '\n' !in rest[..n]
    {
      assert rest[..n + 1] == rest[..n] + [rest[n]];
      n := n + 1;
    }
    if n == limit {
      LongLine(rest, n);
      return Err(RecordReadLimit);
    }
    LineEndUnique(rest, n);
    if n < |rest| {
      return Ok(rest[..n + 1]);
    }
    assert rest[..n] == rest;
    return Ok(rest);
  }

  lemma {:induction false} LongLine(rest: string, n: nat)
    requires n <= |rest| && '\n' !in rest[..n]
    ensures LineEnd(rest) >= n
  {
    NoneInside(rest, 0, n);
  }

  method ReadAll(data: string) returns (result: Result<seq<Record>, LogError>)
    ensures result == ReadLines(data, 1)
  {
    hide ReadLines, ReadLine, LineEnd, Trim, Joined, Prepend;
    var records: seq<Record> := [];
    var from, lineNumber := 0, 0;
    assert data[0..] == data;
    JoinedNothing(ReadLines(data, 1));
    while from < |data|
      invariant from <= |data|
      invariant Joined(records, ReadLines(data[from..], lineNumber + 1)) == ReadLines(data, 1)
      decreases |data| - from
    {
      var rest := data[from..];
      var bounded := ReadBoundedLine(data, from);
      lineNumber := lineNumber + 1;
      ReadStep(rest, lineNumber);
      if bounded.Err? {
        JoinedEnd<Record, LogError>(records, bounded.error);
        return Err(bounded.error);
      }
      var text := bounded.value;
      LineProgress(rest);
      assert data[from + |text|..] == rest[|text|..];
      from := from + |text|;
      var terminated := text[|text| - 1] == '\n';
      match ReadLine(Trim(text), terminated, lineNumber)
      case Skip =>
      case Got(record) =>
        JoinedMore(records, record, ReadLines(data[from..], lineNumber + 1));
        records := records + [record];
      case Stop(stop) =>
        if stop.Err? {
          JoinedEnd<Record, LogError>(records, stop.error);
          return Err(stop.error);
        }
        JoinedEnd<Record, LogError>(records, RecordReadLimit);
        return Ok(records);
    }
    assert data[from..] == "";
    ReadStep("", lineNumber + 1);
    JoinedEnd<Record, LogError>(records, RecordReadLimit);
    return Ok(records);
  }

  lemma {:induction false} LineProgress(rest: string)
    requires rest != ""
    ensures var e := LineEnd(rest);
            var text := if e < |rest| then rest[..e + 1] else rest;
            && 0 < |text| <= |rest|
            && (text[|text| - 1] == '\n' <==> e < |rest|)
            && rest[|text|..] == if e < |rest| then rest[e + 1..] else ""
  {
    var e := LineEnd(rest);
    if e == |rest| {
      assert rest[..e] == rest;
    }
  }

  /** One line of the specification, for use where it is hidden. */
  lemma {:induction false} ReadStep(rest: string, line: nat)
    ensures rest == "" ==> ReadLines(rest, line) == Ok([])
    ensures rest != "" ==>
              var e := LineEnd(rest);
              var terminated := e < |rest|;
              var next := if terminated then rest[e + 1..] else "";
              var content := Trim(if terminated then rest[..e + 1] else rest);
              ReadLines(rest, line) ==
                if e > MAX_RECORD_BYTES then Err(RecordReadLimit)
                else
                  match ReadLine(content, terminated, line)
                  case Skip => ReadLines(next, line + 1)
                  case Got(r) => Prepend(r, ReadLines(next, line + 1))
                  case Stop(result) => result
  {
    hide ReadLine, Trim, LineEnd;
  }

  // ----- the writer

  datatype Repaired = Repaired(data: string, separator: bool)

  /** Tail repair: keep a complete record that only lost its newline, cut anything else back to
      the last newline; `None` when no newline is in reach. */
  function Repair(data: string): Option<Repaired> {
    match TailStart(data)
    case None => None
    case Some(t) =>
      if t == |data| then Some(Repaired(data, false))
      else if |data| - t > MAX_RECORD_BYTES then Some(Repaired(data[..t], false))
      else if Json.ParseDocument(data[t..]).Some? then Some(Repaired(data, true))
      else Some(Repaired(data[..t], false))
  }

  function Line(separator: bool, r: Record): string {
    (if separator then "\n" else "") + Encode(r) + "\n"
  }

  /** One call of `append`, possibly cut off: before its repair took effect, or after
      `written` bytes of its line. */
  datatype Attempt = Attempt(record: Record, repaired: bool, written: nat)

  datatype Outcome = Done | Crashed | Failed(error: LogError)

  function AfterAppend(data: string, a: Attempt): (string, Outcome) {
    if |Encode(a.record)| > MAX_RECORD_BYTES then (data, Failed(RecordWriteLimit))
    else if !a.repaired then (data, Crashed)
    else
      match Repair(data)
      case None => (data, Failed(RecordReadLimit))
      case Some(rep) =>
        var line := Line(rep.separator, a.record);
        if a.written < |line| then (rep.data + line[..a.written], Crashed) else (rep.data + line, Done)
  }

  class LogFile {
    var data: string

    constructor ()
      ensures data == ""
    {
      data := "";
    }

    method RepairUnterminatedTail() returns (separator: Result<bool, LogError>)
      modifies this
      ensures match Repair(old(data))
              case None => separator == Err(RecordReadLimit) && data == old(data)
              case Some(rep) => separator == Ok(rep.separator) && data == rep.data
    {
      hide TailStart, LastLineStart, Json.ParseDocument;
      if data == "" {
        EmptyTail();
        return Ok(false);
      }
      var start := FindTailStart(data);
      match start
      case None => return Err(RecordReadLimit);
      case Some(t) =>
        TailInRange(data);
        if t == |data| {
          return Ok(false);
        }
        if |data| - t > MAX_RECORD_BYTES {
          data := data[..t];
          return Ok(false);
        }
        if Json.ParseDocument(data[t..]).Some? {
          return Ok(true);
        }
        data := data[..t];
        return Ok(false);
    }

    /** `append`, with the moment of a crash as an input. */
    method Append(a: Attempt) returns (outcome: Outcome)
      modifies this
      ensures (data, outcome) == AfterAppend(old(data), a)
    {
      hide Encode, Repair;
      var line := Encode(a.record);
      if |line| > MAX_RECORD_BYTES {
        return Failed(RecordWriteLimit);
      }
      line := line + "\n";
      if !a.repaired {
        return Crashed;
      }
      var separator := RepairUnterminatedTail();
      if separator.Err? {
        return Failed(separator.error);
      }
      if separator.value {
        line := "\n" + line;
      }
      assert line == Line(separator.value, a.record);
      if a.written < |line| {
        data := data + line[..a.written];
        return Crashed;
      }
      data := data + line;
      return Done;
    }
  }

  lemma {:induction false} EmptyTail()
    ensures Repair("") == Some(Repaired("", false))
  {
  }

  lemma {:induction false} TailInRange(data: string)
    ensures TailStart(data).Some? ==> TailStart(data).value <= |data|
  {
  }

  // ----- crash safety

  ghost predicate Fits(r: Record) {
    |Encode(r)| <= MAX_RECORD_BYTES
  }

  function Lines(rs: seq<Record>): string {
    if rs == [] then "" else Encode(rs[0]) + "\n" + Lines(rs[1..])
  }

  /** Committed lines followed by the torn front of one record (possibly nothing at all). */
  ghost predicate TornAfter(data: string, rs: seq<Record>, d: Record, k: nat) {
    (k > 0 ==> Fits(d)) && k < |Encode(d)| && data == Lines(rs) + Encode(d)[..k]
  }

  /** Committed lines followed by a whole record that lost its newline. */
  ghost predicate Unterminated(data: string, rs: seq<Record>) {
    rs != [] && data == Lines(rs[..|rs| - 1]) + Encode(rs[|rs| - 1])
  }

  /** The file holds exactly the records `rs`, whatever else a crash left behind. */
  ghost predicate Holds(data: string, rs: seq<Record>) {
    && (forall i :: 0 <= i < |rs| ==> Fits(rs[i]))
    && (Unterminated(data, rs) || exists d: Record, k: nat :: TornAfter(data, rs, d, k))
  }

  lemma {:induction false} LinesAppend(rs: seq<Record>, r: Record)
    ensures Lines(rs + [r]) == Lines(rs) + Encode(r) + "\n"
    decreases |rs|
  {
    hide Encode;
    if rs == [] {
      assert Lines([r]) == Encode(r) + "\n" + Lines([]);
    } else {
      assert (rs + [r])[1..] == rs[1..] + [r];
      LinesAppend(rs[1..], r);
    }
  }

  lemma {:induction false} LinesEnd(rs: seq<Record>)
    ensures rs == [] ==> Lines(rs) == ""
    ensures rs != [] ==> Lines(rs) != "" && Lines(rs)[|Lines(rs)| - 1] == '\n'
    decreases |rs|
  {
    hide Encode;
    if rs != [] {
      LinesEnd(rs[1..]);
    }
  }

  /** The scan finds the end of the committed lines whatever follows them. */
  lemma {:induction false} TailOf(rs: seq<Record>, tail: string)
    requires '\n' !in tail && |tail| <= MAX_RECORD_BYTES
    ensures TailStart(Lines(rs) + tail) == Some(|Lines(rs)|)
  {
    var data := Lines(rs) + tail;
    LinesEnd(rs);
    assert data[|Lines(rs)|..] == tail;
    LastLineUnique(data, |Lines(rs)|);
  }

  lemma {:induction false} PrefixNoNewline(s: string, k: nat)
    requires '\n' !in s && k <= |s|
    ensures '\n' !in s[..k]
  {
  }

  lemma {:induction false} RepairTorn(data: string, rs: seq<Record>, d: Record, k: nat)
    requires TornAfter(data, rs, d, k)
    ensures Repair(data) == Some(Repaired(Lines(rs), false))
  {
    hide Encode, TailStart, Json.ParseDocument;
    var tail := Encode(d)[..k];
    EncodeShape(d);
    PrefixNoNewline(Encode(d), k);
    TailOf(rs, tail);
    assert data[|Lines(rs)|..] == tail && data[..|Lines(rs)|] == Lines(rs);
    if k == 0 {
      assert data == Lines(rs);
    } else {
      PrefixCorrupt(d, k);
    }
  }

  lemma {:induction false} WholeParses(r: Record)
    ensures Trim(Encode(r)) == Encode(r) && Json.ParseDocument(Encode(r)).Some? && Decode(Encode(r)) == Good(r)
  {
    hide Encode, Trim, Json.ParseDocument, RecordOf, FieldOf;
    EncodeShape(r);
    assert Encode(r)[..|Encode(r)|] == Encode(r);
    TrimPrefix(r, |Encode(r)|);
    RoundTrip(r);
  }

  lemma {:induction false} RepairUnterminated(data: string, rs: seq<Record>)
    requires Unterminated(data, rs) && Fits(rs[|rs| - 1])
    ensures Repair(data) == Some(Repaired(data, true))
  {
    hide Encode, TailStart, Json.ParseDocument;
    var front, r := rs[..|rs| - 1], rs[|rs| - 1];
    EncodeShape(r);
    TailOf(front, Encode(r));
    assert data[|Lines(front)|..] == Encode(r);
    WholeParses(r);
  }

  /** The last byte of the record reached the disk. */
  ghost predicate Landed(data: string, a: Attempt) {
    && Fits(a.record) && a.repaired && Repair(data).Some?
    && a.written >= |Encode(a.record)| + if Repair(data).value.separator then 1 else 0
  }

  ghost function Added(data: string, a: Attempt): seq<Record> {
    if Landed(data, a) then [a.record] else []
  }

  /** Writing the first `n` bytes of a record and its newline after committed lines. */
  lemma {:induction false} WriteAfterLines(rs: seq<Record>, r: Record, n: nat)
    requires (forall i :: 0 <= i < |rs| ==> Fits(rs[i])) && Fits(r) && n <= |Encode(r)| + 1
    ensures Holds(Lines(rs) + (Encode(r) + "\n")[..n], if n >= |Encode(r)| then rs + [r] else rs)
  {
    hide Encode, Lines, Fits;
    if n < |Encode(r)| {
      assert (Encode(r) + "\n")[..n] == Encode(r)[..n];
      assert TornAfter(Lines(rs) + Encode(r)[..n], rs, r, n);
    } else if n == |Encode(r)| {
      assert (Encode(r) + "\n")[..n] == Encode(r);
      assert (rs + [r])[..|rs|] == rs;
      assert Unterminated(Lines(rs) + Encode(r), rs + [r]);
    } else {
      WriteWhole(rs, r);
      assert (Encode(r) + "\n")[..n] == Encode(r) + "\n";
    }
  }

  lemma {:induction false} WriteWhole(rs: seq<Record>, r: Record)
    requires (forall i :: 0 <= i < |rs| ==> Fits(rs[i])) && Fits(r)
    ensures Holds(Lines(rs) + (Encode(r) + "\n"), rs + [r])
  {
    hide Encode, Lines, Fits;
    var data := Lines(rs) + (Encode(r) + "\n");
    LinesAppend(rs, r);
    assert data == Lines(rs + [r]);
    assert Encode(r)[..0] == "";
    assert data + "" == data;
    EncodeShape(r);
    assert TornAfter(data, rs + [r], r, 0);
  }

  /** One append, cut anywhere, keeps every record already held and adds its own exactly when
      its last byte landed.  Neither repair nor the tail scan can fail. */
  lemma {:induction false} AppendKeeps(data: string, rs: seq<Record>, a: Attempt)
    requires Holds(data, rs)
    ensures Repair(data).Some?
    ensures Holds(AfterAppend(data, a).0, rs + Added(data, a))
    ensures AfterAppend(data, a).1 == Done ==> Landed(data, a)
    ensures AfterAppend(data, a).1.Failed? ==> AfterAppend(data, a).1 == Failed(RecordWriteLimit)
  {
    hide Encode, Repair, Lines;
    assert rs + [] == rs;
    if Unterminated(data, rs) {
      RepairUnterminated(data, rs);
      AppendAfterUnterminated(data, rs, a);
    } else {
      var d: Record, k: nat :| TornAfter(data, rs, d, k);
      RepairTorn(data, rs, d, k);
      AppendAfterTorn(data, rs, a);
    }
  }

  lemma {:induction false} AppendAfterTorn(data: string, rs: seq<Record>, a: Attempt)
    requires Holds(data, rs) && Repair(data) == Some(Repaired(Lines(rs), false))
    ensures Holds(AfterAppend(data, a).0, rs + Added(data, a))
    ensures AfterAppend(data, a).1 == Done ==> Landed(data, a)
  {
    hide Encode, Repair, Lines, TornAfter, Unterminated;
    assert rs + [] == rs;
    var r := a.record;
    if Fits(r) && a.repaired {
      var line := Line(false, r);
      assert line == Encode(r) + "\n";
      var n := if a.written < |line| then a.written else |line|;
      assert line[..|line|] == line;
      HoldsFits(data, rs);
      WriteAfterLines(rs, r, n);
    }
  }

  lemma {:induction false} HoldsFits(data: string, rs: seq<Record>)
    requires Holds(data, rs)
    ensures forall i :: 0 <= i < |rs| ==> Fits(rs[i])
  {
  }

  lemma {:induction false} AppendAfterUnterminated(data: string, rs: seq<Record>, a: Attempt)
    requires Holds(data, rs) && Unterminated(data, rs) && Repair(data) == Some(Repaired(data, true))
    ensures Holds(AfterAppend(data, a).0, rs + Added(data, a))
    ensures AfterAppend(data, a).1 == Done ==> Landed(data, a)
  {
    hide Encode, Repair, Lines, TornAfter;
    assert rs + [] == rs;
    var r := a.record;
    if Fits(r) && a.repaired {
      var line := Line(true, r);
      assert line == "\n" + (Encode(r) + "\n");
      var n := if a.written < |line| then a.written else |line|;
      assert line[..|line|] == line;
      HoldsFits(data, rs);
      if n == 0 {
        assert data + line[..0] == data;
      } else {
        assert line[..n] == "\n" + (Encode(r) + "\n")[..n - 1];
        assert rs == rs[..|rs| - 1] + [rs[|rs| - 1]];
        LinesAppend(rs[..|rs| - 1], rs[|rs| - 1]);
        assert data + line[..n] == Lines(rs) + (Encode(r) + "\n")[..n - 1];
        WriteAfterLines(rs, r, n - 1);
      }
    }
  }

  // ----- what a reader sees

  lemma {:induction false} ReadCommitted(rs: seq<Record>, tail: string, line: nat)
    requires forall i :: 0 <= i < |rs| ==> Fits(rs[i])
    ensures ReadLines(Lines(rs) + tail, line) == Joined(rs, ReadLines(tail, line + |rs|))
    decreases |rs|
  {
    hide Encode, Decode, Trim, ReadLines;
    if rs == [] {
      assert Lines(rs) + tail == tail;
      JoinedNothing(ReadLines(tail, line));
    } else {
      var r, more := rs[0], Lines(rs[1..]) + tail;
      assert Lines(rs) + tail == Encode(r) + "\n" + more;
      ReadOne(r, more, line);
      ReadCommitted(rs[1..], tail, line + 1);
      JoinedFront(r, rs[1..], ReadLines(tail, line + |rs|));
      assert [r] + rs[1..] == rs;
    }
  }

  lemma {:induction false} JoinedFront(r: Record, rs: seq<Record>, rest: Result<seq<Record>, LogError>)
    ensures Prepend(r, Joined(rs, rest)) == Joined([r] + rs, rest)
  {
    if rest.Ok? {
      assert [r] + (rs + rest.value) == [r] + rs + rest.value;
    }
  }

  lemma {:induction false} ReadOne(r: Record, more: string, line: nat)
    requires Fits(r)
    ensures ReadLines(Encode(r) + "\n" + more, line) == Prepend(r, ReadLines(more, line + 1))
  {
    hide Encode, Decode, Trim, ReadLines, LineEnd;
    var rest := Encode(r) + "\n" + more;
    var e := |Encode(r)|;
    EncodeShape(r);
    assert rest[..e] == Encode(r);
    LineEndUnique(rest, e);
    assert rest[..e + 1] == Encode(r) + "\n";
    assert rest[e + 1..] == more;
    TrimLine(r);
    WholeParses(r);
    ReadStep(rest, line);
  }

  lemma {:induction false} TrimLine(r: Record)
    ensures Trim(Encode(r) + "\n") == Encode(r) && Encode(r) != ""
  {
    hide Encode;
    EncodeShape(r);
    var s := Encode(r) + "\n";
    assert TrimStart(s) == s;
    assert s[..|s| - 1] == Encode(r);
    assert TrimEnd(Encode(r)) == Encode(r);
  }

  lemma {:induction false} ReadTorn(d: Record, k: nat, line: nat)
    requires (k > 0 ==> Fits(d)) && k < |Encode(d)|
    ensures ReadLines(Encode(d)[..k], line) == Ok([])
  {
    hide Encode, Decode, Trim, ReadLines, LineEnd;
    var rest := Encode(d)[..k];
    ReadStep(rest, line);
    if k > 0 {
      EncodeShape(d);
      PrefixNoNewline(Encode(d), k);
      assert rest[..k] == rest;
      LineEndUnique(rest, k);
      TrimPrefix(d, k);
      var j :| 0 < j <= k && Trim(rest) == Encode(d)[..j];
      PrefixCorrupt(d, j);
      CorruptDecodes(Encode(d)[..j]);
    }
  }

  lemma {:induction false} CorruptDecodes(s: string)
    requires Json.ParseDocument(s) == None
    ensures Decode(s) == Corrupt
  {
  }

  lemma {:induction false} ReadUnterminated(r: Record, line: nat)
    requires Fits(r)
    ensures ReadLines(Encode(r), line) == Ok([r])
  {
    hide Encode, Decode, Trim, ReadLines, LineEnd;
    var rest := Encode(r);
    EncodeShape(r);
    assert rest[..|rest|] == rest;
    LineEndUnique(rest, |rest|);
    WholeParses(r);
    ReadStep(rest, line);
    ReadStep("", line + 1);
    assert [r] + [] == [r];
  }

  /** Reading a held file never fails and yields exactly the records it holds. */
  lemma {:induction false} HeldIsRead(data: string, rs: seq<Record>)
    requires Holds(data, rs)
    ensures ReadLines(data, 1) == Ok(rs)
  {
    hide Encode, Lines, ReadLines, Fits;
    if Unterminated(data, rs) {
      var front, r := rs[..|rs| - 1], rs[|rs| - 1];
      ReadCommitted(front, Encode(r), 1);
      ReadUnterminated(r, 1 + |front|);
      assert front + [r] == rs;
    } else {
      var d: Record, k: nat :| TornAfter(data, rs, d, k);
      ReadCommitted(rs, Encode(d)[..k], 1);
      ReadTorn(d, k, 1 + |rs|);
      assert rs + [] == rs;
    }
  }

  // ----- whole runs

  /** The file after a run of appends that began with an empty file. */
  function Run(attempts: seq<Attempt>): string {
    if attempts == [] then "" else AfterAppend(Run(attempts[..|attempts| - 1]), attempts[|attempts| - 1]).0
  }

  /** The records whose last byte reached the disk, in order. */
  ghost function Stored(attempts: seq<Attempt>): seq<Record> {
    if attempts == [] then []
    else
      var before := attempts[..|attempts| - 1];
      Stored(before) + Added(Run(before), attempts[|attempts| - 1])
  }

  lemma {:induction false} RunHolds(attempts: seq<Attempt>)
    ensures Holds(Run(attempts), Stored(attempts))
    decreases |attempts|
  {
    hide AfterAppend, Added, Encode;
    if attempts == [] {
      EncodeShape(EMPTY);
      assert Lines([]) + Encode(EMPTY)[..0] == "";
      assert TornAfter("", [], EMPTY, 0);
    } else {
      var before := attempts[..|attempts| - 1];
      RunHolds(before);
      AppendKeeps(Run(before), Stored(before), attempts[|attempts| - 1]);
    }
  }

  /** Crash safety: over every run of appends cut off anywhere, reading succeeds and returns
      exactly the records that fully reached the disk; every append that reported success is
      among them; and no append ever fails except for its own size. */
  lemma {:induction false} CrashSafety(attempts: seq<Attempt>)
    ensures ReadLines(Run(attempts), 1) == Ok(Stored(attempts))
    ensures forall i :: 0 <= i < |attempts| ==>
              var outcome := AfterAppend(Run(attempts[..i]), attempts[i]).1;
              && (outcome == Done ==> Landed(Run(attempts[..i]), attempts[i]))
              && (outcome.Failed? ==> outcome == Failed(RecordWriteLimit))
  {
    hide AfterAppend, Landed, Holds, ReadLines;
    RunHolds(attempts);
    HeldIsRead(Run(attempts), Stored(attempts));
    forall i | 0 <= i < |attempts|
      ensures var outcome := AfterAppend(Run(attempts[..i]), attempts[i]).1;
              && (outcome == Done ==> Landed(Run(attempts[..i]), attempts[i]))
              && (outcome.Failed? ==> outcome == Failed(RecordWriteLimit))
    {
      RunHolds(attempts[..i]);
      AppendKeeps(Run(attempts[..i]), Stored(attempts[..i]), attempts[i]);
    }
  }

  /** Records never disappear: whatever could be read after part of a run is read again, first
      and in the same order, after all of it. */
  lemma {:induction false} ReadGrows(attempts: seq<Attempt>, n: nat)
    requires n <= |attempts|
    ensures ReadLines(Run(attempts[..n]), 1).Ok? && ReadLines(Run(attempts), 1).Ok?
    ensures ReadLines(Run(attempts[..n]), 1).value <= ReadLines(Run(attempts), 1).value
  {
    hide ReadLines, Run, Stored;
    CrashSafety(attempts[..n]);
    CrashSafety(attempts);
    StoredGrows(attempts, n);
  }

  lemma {:induction false} StoredGrows(attempts: seq<Attempt>, n: nat)
    requires n <= |attempts|
    ensures Stored(attempts[..n]) <= Stored(attempts)
    decreases |attempts| - n
  {
    hide Added;
    if n < |attempts| {
      StoredGrows(attempts, n + 1);
      assert attempts[..n + 1][..n] == attempts[..n];
    } else {
      assert attempts[..n] == attempts;
    }
  }
}
