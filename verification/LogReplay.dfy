/** Replaying a run's journal while it may still be growing.

    Each pass reads the whole file and handles the complete lines that are new.  The output is
    compared with one pass over everything. */
module LogReplay {
  import opened Common

  datatype Record =
    | StepStarted(instance: string, event: string, index: nat, stepId: Option<string>)
    | Log(job: string, logInstance: string, stepEvent: Option<string>)
    | RunFinished
    | OtherEvent

  datatype StepIdentity = StepIdentity(index: nat, stepId: Option<string>)

  datatype LogsArgs = LogsArgs(follow: bool, tail: Option<nat>, job: Option<string>, step: Option<string>)

  /** Decoding a line, rendering a record, and reading a number: fixed for one invocation. */
  datatype Tools = Tools(
    decode: string -> Option<Record>,
    render: (string, Record) -> string,
    ordinal: string -> Option<nat>)

  type Steps = map<(string, string), StepIdentity>

  function IndexStep(r: Record, steps: Steps): Steps {
    if r.StepStarted? then steps[(r.instance, r.event) := StepIdentity(r.index, r.stepId)] else steps
  }

  predicate MatchesFilter(tools: Tools, args: LogsArgs, r: Record, steps: Steps) {
    && r.Log?
    && (args.job.Some? ==> args.job.value == r.job || args.job.value == r.logInstance)
    && (args.step.Some? ==>
          && r.stepEvent.Some?
          && (|| args.step.value == r.stepEvent.value
              || ((r.logInstance, r.stepEvent.value) in steps
                  && var identity := steps[(r.logInstance, r.stepEvent.value)];
                     identity.stepId == args.step || tools.ordinal(args.step.value) == Some(identity.index + 1))))
  }

  /** What has been learned and written so far; `failed` once a line did not decode. */
  datatype Progress = Progress(steps: Steps, terminal: bool, output: seq<string>, failed: bool)

  const START: Progress := Progress(map[], false, [], false)

  /** One journal line. */
  function Handle(tools: Tools, args: LogsArgs, p: Progress, line: string): Progress {
    if p.failed || line == "" then p
    else
      match tools.decode(line)
      case None => p.(failed := true)
      case Some(r) =>
        var steps := IndexStep(r, p.steps);
        Progress(steps, p.terminal || r.RunFinished?,
                 if MatchesFilter(tools, args, r, steps) then p.output + [tools.render(line, r)] else p.output, false)
  }

  /** All lines of `text`, which ends with a newline or is empty. */
  function Replay(tools: Tools, args: LogsArgs, p: Progress, text: string): Progress
    decreases text
  {
    if text == "" then p
    else
      var e := LineEnd(text);
      Replay(tools, args, Handle(tools, args, p, text[..e]), text[if e < |text| then e + 1 else e..])
  }

  function LineEnd(text: string): (e: nat)
    ensures e <= |text|
    ensures text != "" && e == 0 ==> text[0] == '\n'
  {
    if text == "" || text[0] == '\n' then 0 else 1 + LineEnd(text[1..])
  }

  /** The length of the part of `text` that consists of complete lines. */
  function CompleteLength(text: string): (n: nat)
    ensures n <= |text|
  {
    if text == "" then 0
    else if text[|text| - 1] == '\n' then |text|
    else CompleteLength(text[..|text| - 1])
  }

  function Complete(text: string): string {
    text[..CompleteLength(text)]
  }

  // ----- lines do not care where a read ended

  ghost predicate WholeLines(text: string) {
    text == "" || text[|text| - 1] == '\n'
  }

  lemma {:induction false} CompleteFacts(text: string)
    ensures WholeLines(Complete(text))
    ensures forall i :: CompleteLength(text) <= i < |text| ==> text[i] != '\n'
  {
    if text != "" && text[|text| - 1] != '\n' {
      CompleteFacts(text[..|text| - 1]);
      assert Complete(text) == Complete(text[..|text| - 1]);
    } else {
      assert Complete(text) == text;
    }
  }

  lemma CompleteUnique(text: string, n: nat)
    requires n <= |text| && WholeLines(text[..n]) && forall i :: n <= i < |text| ==> text[i] != '\n'
    ensures CompleteLength(text) == n
  {
    CompleteFacts(text);
    var m := CompleteLength(text);
    if m > 0 {
      assert Complete(text)[m - 1] == text[m - 1];
    }
    if n > 0 {
      assert text[..n][n - 1] == text[n - 1];
    }
  }

  lemma {:induction false} LineEndAppend(a: string, b: string)
    requires LineEnd(a) < |a|
    ensures LineEnd(a + b) == LineEnd(a)
  {
    if a[0] != '\n' {
      assert (a + b)[1..] == a[1..] + b;
      LineEndAppend(a[1..], b);
    }
  }

  lemma {:induction false} LineEndInside(a: string)
    requires a != "" && a[|a| - 1] == '\n'
    ensures LineEnd(a) < |a|
  {
    if a[0] != '\n' {
      LineEndInside(a[1..]);
    }
  }

  /** Replaying two texts in turn is replaying their concatenation. */
  lemma {:induction false} ReplayAppend(tools: Tools, args: LogsArgs, p: Progress, a: string, b: string)
    requires WholeLines(a)
    ensures Replay(tools, args, p, a + b) == Replay(tools, args, Replay(tools, args, p, a), b)
    decreases a
  {
    hide Handle, LineEnd;
    if a == "" {
      assert a + b == b;
    } else {
      LineEndInside(a);
      LineEndAppend(a, b);
      var e := LineEnd(a);
      assert (a + b)[..e] == a[..e];
      assert (a + b)[e + 1..] == a[e + 1..] + b;
      ReplayAppend(tools, args, Handle(tools, args, p, a[..e]), a[e + 1..], b);
    }
  }

  /** Output is only ever added to. */
  lemma {:induction false} ReplayGrows(tools: Tools, args: LogsArgs, p: Progress, text: string)
    ensures p.output <= Replay(tools, args, p, text).output
    ensures p.failed ==> Replay(tools, args, p, text) == p
    ensures p.terminal ==> Replay(tools, args, p, text).terminal
    decreases text
  {
    if text != "" {
      hide LineEnd;
      var e := LineEnd(text);
      HandleGrows(tools, args, p, text[..e]);
      ReplayGrows(tools, args, Handle(tools, args, p, text[..e]), text[if e < |text| then e + 1 else e..]);
    }
  }

  lemma HandleGrows(tools: Tools, args: LogsArgs, p: Progress, line: string)
    ensures p.output <= Handle(tools, args, p, line).output
    ensures p.failed ==> Handle(tools, args, p, line) == p
    ensures p.terminal ==> Handle(tools, args, p, line).terminal
  {
    hide MatchesFilter;
  }

  /** A longer file extends the complete part of a shorter one. */
  lemma CompleteGrows(before: string, after: string)
    requires before <= after
    ensures CompleteLength(before) <= CompleteLength(after)
    ensures Complete(after) == Complete(before) + Complete(after[CompleteLength(before)..])
  {
    hide CompleteLength;
    var n := CompleteLength(before);
    var m := CompleteLength(after[n..]);
    CompleteFacts(before);
    CompleteFacts(after[n..]);
    assert before[..n] == after[..n];
    CompleteJoin(after, n, after[n..], m);
  }

  lemma CompleteJoin(text: string, n: nat, rest: string, m: nat)
    requires n <= |text| && rest == text[n..] && m <= |rest| && WholeLines(text[..n]) && WholeLines(rest[..m])
    requires forall i :: m <= i < |rest| ==> rest[i] != '\n'
    ensures CompleteLength(text) == n + m && text[..n + m] == text[..n] + rest[..m]
  {
    hide CompleteLength;
    assert text[..n + m] == text[..n] + rest[..m];
    forall i | n + m <= i < |text|
      ensures text[i] != '\n'
    {
      assert text[i] == rest[i - n];
    }
    CompleteUnique(text, n + m);
  }

  // ----- the command

  datatype Outcome = Finished | Waiting | InvalidEvent | IncompleteEvent | Shrank

  ghost predicate AppendOnly(snapshots: seq<string>) {
    forall i, j :: 0 <= i <= j < |snapshots| ==> snapshots[i] <= snapshots[j]
  }

  /** Batch replay of everything complete in `text`. */
  function Batch(tools: Tools, args: LogsArgs, text: string): Progress {
    Replay(tools, args, START, Complete(text))
  }

  /** Following has no reason to stop at `text`. */
  ghost predicate GoesOn(tools: Tools, args: LogsArgs, text: string) {
    var p := Batch(tools, args, text);
    !p.failed && !p.terminal
  }

  /** `output` is the end of `shown`.  Without `--tail` it is all of it; with `--tail n` it leaves
      out the matches of the first pass (`head`) but for the last `n`. */
  ghost predicate Shows(tail: Option<nat>, head: seq<string>, shown: seq<string>, output: seq<string>) {
    && |head| <= |shown| && |output| <= |shown|
    && output == shown[|shown| - |output|..]
    && match tail
       case None => |output| == |shown|
       case Some(n) => |output| == (if n <= |head| then n else |head|) + |shown| - |head|
  }

  /** The last newline, searched from the end. */
  method FindComplete(appended: string) returns (length: nat)
    ensures length == CompleteLength(appended)
  {
    length := |appended|;
    assert appended[..|appended|] == appended;
    while length > 0 && appended[length - 1] != '\n'
      invariant length <= |appended| && CompleteLength(appended[..length]) == CompleteLength(appended)
    {
      assert appended[..length][..length - 1] == appended[..length - 1];
      length := length - 1;
    }
  }

  /** Handles the lines of `text` one by one, stopping at the first that does not decode.  With a
      limit, the matches wait in a queue that drops its oldest. */
  method ReplayLines(tools: Tools, args: LogsArgs, p: Progress, text: string, limit: Option<nat>)
    returns (next: Progress, queue: seq<string>)
    ensures next == Replay(tools, args, p, text) && p.output <= next.output
    ensures Shows(limit, next.output[|p.output|..], next.output[|p.output|..], queue)
  {
    hide Handle, LineEnd;
    next, queue := p, [];
    var rest := text;
    while rest != "" && !next.failed
      invariant Replay(tools, args, next, rest) == Replay(tools, args, p, text)
      invariant p.output <= next.output
      invariant Shows(limit, next.output[|p.output|..], next.output[|p.output|..], queue)
      decreases |rest|
    {
      var e := LineEnd(rest);
      LineEndMoves(rest);
      HandleGrows(tools, args, next, rest[..e]);
      var after := Handle(tools, args, next, rest[..e]);
      queue := Enqueue(limit, queue, next.output[|p.output|..], after.output[|next.output|..]);
      assert next.output[|p.output|..] + after.output[|next.output|..] == after.output[|p.output|..];
      next := after;
      rest := rest[if e < |rest| then e + 1 else e..];
    }
    ReplayGrows(tools, args, next, rest);
  }

  method Enqueue(limit: Option<nat>, queue: seq<string>, ghost before: seq<string>, rendered: seq<string>)
    returns (next: seq<string>)
    requires Shows(limit, before, before, queue)
    ensures Shows(limit, before + rendered, before + rendered, next)
  {
    next := queue + rendered;
    ghost var all := before + rendered;
    assert next == all[|all| - |next|..];
    while limit.Some? && |next| > limit.value
      invariant |next| <= |all| && next == all[|all| - |next|..]
      invariant limit.None? ==> |next| == |all|
      invariant limit.Some? ==> |next| >= (if limit.value <= |all| then limit.value else |all|)
      decreases |next|
    {
      next := next[1..];
    }
  }

  lemma LineEndMoves(text: string)
    requires text != ""
    ensures LineEnd(text) == 0 ==> |text| > 0 && LineEnd(text) < |text|
  {
  }

  /** The `logs` command over the successive contents of the journal. */
  method Run(tools: Tools, args: LogsArgs, snapshots: seq<string>)
      returns (output: seq<string>, outcome: Outcome, ghost passes: nat)
    requires AppendOnly(snapshots) && snapshots != []
    ensures outcome != Shrank && 0 < passes <= |snapshots|
    ensures forall k :: 0 <= k < passes - 1 ==> args.follow && GoesOn(tools, args, snapshots[k])
    ensures outcome == IncompleteEvent <==> !args.follow && Complete(snapshots[0]) != snapshots[0]
    ensures outcome == IncompleteEvent ==> output == []
    ensures outcome != IncompleteEvent ==>
              (outcome == InvalidEvent <==> Batch(tools, args, snapshots[passes - 1]).failed)
    ensures outcome == InvalidEvent && args.tail.Some? && passes == 1 ==> output == []
    ensures outcome != IncompleteEvent && (outcome != InvalidEvent || args.tail.None? || passes > 1) ==>
              var head := Batch(tools, args, snapshots[0]).output;
              Shows(args.tail, head, Batch(tools, args, snapshots[passes - 1]).output, output)
    ensures passes == 1 && outcome == Finished && args.tail.Some? ==>
              var all := Batch(tools, args, snapshots[0]).output;
              && |output| == (if args.tail.value <= |all| then args.tail.value else |all|)
              && output == all[|all| - |output|..]
    ensures outcome == Finished ==> !args.follow || Batch(tools, args, snapshots[passes - 1]).terminal
    ensures outcome == Waiting ==> passes == |snapshots| && args.follow && GoesOn(tools, args, snapshots[passes - 1])
  {
    hide Replay, CompleteLength, Shows;
    var offset := 0;
    var p := START;
    output := [];
    passes := 0;
    ghost var done := "";
    EmptyBatch(tools, args);
    for k := 0 to |snapshots|
      invariant passes == k && offset == CompleteLength(done)
      invariant p == Batch(tools, args, done) && !p.failed
      invariant done == if k == 0 then "" else snapshots[k - 1]
      invariant k > 0 ==> Shows(args.tail, Batch(tools, args, snapshots[0]).output, p.output, output)
      invariant k == 0 ==> output == [] && p == START
      invariant forall j :: 0 <= j < k ==> args.follow && GoesOn(tools, args, snapshots[j])
    {
      var bytes := snapshots[k];
      assert done <= bytes;
      CompleteGrows(done, bytes);
      if offset > |bytes| {
        return output, Shrank, passes;
      }
      var appended := bytes[offset..];
      var length := FindComplete(appended);
      PassIsBatch(tools, args, done, bytes);
      passes := k + 1;
      if !args.follow && length != |appended| {
        IncompleteText(bytes, offset, length);
        return output, IncompleteEvent, passes;
      }
      var next, added := ReplayLines(tools, args, p, appended[..length], if k == 0 then args.tail else None);
      if k == 0 {
        assert next.output[0..] == next.output;
      }
      if next.failed && args.tail.Some? && k == 0 {
        return output, InvalidEvent, passes;
      }
      Written(args.tail, if k == 0 then next.output else Batch(tools, args, snapshots[0]).output, p.output, next.output,
              k == 0, output, added);
      output := output + added;
      TailShows(args.tail, next.output, output);
      if next.failed {
        return output, InvalidEvent, passes;
      }
      p := next;
      offset := offset + length;
      done := bytes;
      if !args.follow || p.terminal {
        return output, Finished, passes;
      }
    }
    return output, Waiting, passes;
  }

  lemma EmptyBatch(tools: Tools, args: LogsArgs)
    ensures Batch(tools, args, "") == START && CompleteLength("") == 0
  {
  }

  /** Continuing from where the last pass stopped is the batch replay of the longer file. */
  lemma PassIsBatch(tools: Tools, args: LogsArgs, before: string, after: string)
    requires before <= after
    ensures CompleteLength(before) <= |after|
    ensures Replay(tools, args, Batch(tools, args, before), Complete(after[CompleteLength(before)..]))
         == Batch(tools, args, after)
    ensures CompleteLength(before) + CompleteLength(after[CompleteLength(before)..]) == CompleteLength(after)
    ensures Batch(tools, args, before).output <= Batch(tools, args, after).output
  {
    hide Replay, CompleteLength;
    CompleteGrows(before, after);
    CompleteFacts(before);
    var more := Complete(after[CompleteLength(before)..]);
    ReplayAppend(tools, args, START, Complete(before), more);
    ReplayGrows(tools, args, Batch(tools, args, before), more);
    assert |Complete(after)| == |Complete(before)| + |more|;
  }

  lemma IncompleteText(bytes: string, offset: nat, length: nat)
    requires offset <= |bytes| && length < |bytes[offset..]| && offset + length == CompleteLength(bytes)
    ensures Complete(bytes) != bytes
  {
  }

  /** A pass writes the queue when it is the first, and all its matches later. */
  lemma Written(tail: Option<nat>, head: seq<string>, before: seq<string>, after: seq<string>, first: bool,
                output: seq<string>, added: seq<string>)
    requires before <= after
    requires if first then output == [] == before && head == after && Shows(tail, after, after, added)
             else Shows(tail, head, before, output) && Shows(None, after[|before|..], after[|before|..], added)
    ensures Shows(tail, head, after, output + added)
  {
    if first {
      assert output + added == added;
    } else {
      assert added == after[|before|..];
      assert output + added == after[|after| - |output + added|..];
    }
  }

  lemma TailShows(tail: Option<nat>, all: seq<string>, output: seq<string>)
    ensures Shows(tail, all, all, output) && tail.Some? ==>
              && |output| == (if tail.value <= |all| then tail.value else |all|)
              && output == all[|all| - |output|..]
  {
  }

  // ----- the batch output, line by line

  /** A journal of complete lines. */
  function Journal(lines: seq<string>): string {
    if lines == [] then "" else Journal(lines[..|lines| - 1]) + lines[|lines| - 1] + "\n"
  }

  /** `records` is what `lines` say; an empty line says nothing. */
  ghost predicate Decoded(tools: Tools, lines: seq<string>, records: seq<Record>) {
    && |lines| == |records|
    && forall i :: 0 <= i < |lines| ==>
         && '\n' !in lines[i]
         && if lines[i] == "" then records[i] == OtherEvent else tools.decode(lines[i]) == Some(records[i])
  }

  ghost predicate Starts(r: Record, instance: string, event: string) {
    r.StepStarted? && r.instance == instance && r.event == event
  }

  /** Record `j` is the last up to `i` that starts the step `event` of `instance`. */
  ghost predicate LastStart(records: seq<Record>, i: nat, instance: string, event: string, j: nat)
    requires i <= |records|
  {
    && j < i && Starts(records[j], instance, event)
    && forall k :: j < k < i ==> !Starts(records[k], instance, event)
  }

  /** The step filter names the step of `r` by its event, its id, or its position counted from one,
      going by the steps started before position `i`. */
  ghost predicate StepSelected(tools: Tools, step: string, records: seq<Record>, i: nat, r: Record)
    requires r.Log? && i <= |records|
  {
    && r.stepEvent.Some?
    && (|| step == r.stepEvent.value
        || exists j: nat :: && LastStart(records, i, r.logInstance, r.stepEvent.value, j)
                            && (records[j].stepId == Some(step) || tools.ordinal(step) == Some(records[j].index + 1)))
  }

  /** Line `i` is shown: a log line of the wanted job and step. */
  ghost predicate Selected(tools: Tools, args: LogsArgs, records: seq<Record>, i: nat)
    requires i < |records|
  {
    && records[i].Log?
    && (args.job.None? || args.job == Some(records[i].job) || args.job == Some(records[i].logInstance))
    && (args.step.None? || StepSelected(tools, args.step.value, records, i + 1, records[i]))
  }

  /** `picks` are the selected lines in order. */
  ghost predicate Picks(tools: Tools, args: LogsArgs, records: seq<Record>, picks: seq<nat>) {
    && (forall k :: 0 <= k < |picks| ==> picks[k] < |records| && Selected(tools, args, records, picks[k]))
    && (forall k, l :: 0 <= k < l < |picks| ==> picks[k] < picks[l])
    && (forall i :: 0 <= i < |records| && Selected(tools, args, records, i) ==> i in picks)
  }

  ghost predicate StepsAre(records: seq<Record>, i: nat, steps: Steps)
    requires i <= |records|
  {
    && (forall instance, event, j: nat :: LastStart(records, i, instance, event, j) ==>
          (instance, event) in steps && steps[(instance, event)] == StepIdentity(records[j].index, records[j].stepId))
    && (forall key :: key in steps ==> exists j: nat :: LastStart(records, i, key.0, key.1, j))
  }

  /** `p` is the state after the first `|records|` lines. */
  ghost predicate After(tools: Tools, args: LogsArgs, lines: seq<string>, records: seq<Record>, p: Progress,
                        picks: seq<nat>)
    requires |lines| == |records|
  {
    && !p.failed
    && (p.terminal <==> exists i :: 0 <= i < |records| && records[i].RunFinished?)
    && StepsAre(records, |records|, p.steps)
    && Picks(tools, args, records, picks)
    && |p.output| == |picks|
    && forall k :: 0 <= k < |picks| ==> p.output[k] == tools.render(lines[picks[k]], records[picks[k]])
  }

  lemma OneLine(line: string)
    requires '\n' !in line
    ensures WholeLines(line + "\n") && LineEnd(line + "\n") == |line|
  {
    if line != "" {
      OneLine(line[1..]);
      assert (line + "\n")[1..] == line[1..] + "\n";
    }
  }

  lemma ReplayOne(tools: Tools, args: LogsArgs, p: Progress, line: string)
    requires '\n' !in line
    ensures Replay(tools, args, p, line + "\n") == Handle(tools, args, p, line)
  {
    hide Handle;
    OneLine(line);
    assert (line + "\n")[..|line|] == line;
    assert (line + "\n")[|line| + 1..] == "";
  }

  lemma JournalWhole(lines: seq<string>)
    ensures WholeLines(Journal(lines))
  {
  }

  /** One more line of the journal. */
  lemma JournalStep(tools: Tools, args: LogsArgs, p: Progress, lines: seq<string>)
    requires lines != [] && '\n' !in lines[|lines| - 1]
    ensures var front := lines[..|lines| - 1];
            Replay(tools, args, p, Journal(lines))
            == Handle(tools, args, Replay(tools, args, p, Journal(front)), lines[|lines| - 1])
  {
    hide Handle, Replay, LineEnd;
    var front, last := lines[..|lines| - 1], lines[|lines| - 1];
    JournalWhole(front);
    ReplayAppend(tools, args, p, Journal(front), last + "\n");
    ReplayOne(tools, args, Replay(tools, args, p, Journal(front)), last);
    assert Journal(lines) == Journal(front) + (last + "\n");
  }

  lemma LastStartBefore(records: seq<Record>, r: Record, instance: string, event: string, j: nat)
    requires !Starts(r, instance, event)
    ensures LastStart(records + [r], |records| + 1, instance, event, j)
       <==> LastStart(records, |records|, instance, event, j)
  {
    var all := records + [r];
    if LastStart(records, |records|, instance, event, j) {
      assert all[j] == records[j];
      assert forall k :: j < k < |all| ==> !Starts(all[k], instance, event);
    }
    if LastStart(all, |all|, instance, event, j) {
      assert forall k :: j < k < |records| ==> all[k] == records[k];
    }
  }

  lemma StepsFollow(records: seq<Record>, r: Record, steps: Steps)
    requires StepsAre(records, |records|, steps)
    ensures StepsAre(records + [r], |records| + 1, IndexStep(r, steps))
  {
    var all, n, next := records + [r], |records|, IndexStep(r, steps);
    var m := n + 1;
    assert all[n] == r;
    forall instance, event, j: nat | LastStart(all, m, instance, event, j)
      ensures (instance, event) in next
      ensures next[(instance, event)] == StepIdentity(all[j].index, all[j].stepId)
    {
      if Starts(r, instance, event) {
        assert j == n;
      } else {
        LastStartBefore(records, r, instance, event, j);
      }
    }
    forall key | key in next
      ensures exists j: nat :: LastStart(all, m, key.0, key.1, j)
    {
      if Starts(r, key.0, key.1) {
        assert LastStart(all, m, key.0, key.1, n);
      } else {
        var j: nat :| LastStart(records, n, key.0, key.1, j);
        LastStartBefore(records, r, key.0, key.1, j);
      }
    }
  }

  /** The filter's view of the steps is the journal's. */
  lemma FilterIsSelection(tools: Tools, args: LogsArgs, records: seq<Record>, i: nat, steps: Steps)
    requires i < |records| && StepsAre(records, i + 1, steps)
    ensures MatchesFilter(tools, args, records[i], steps) <==> Selected(tools, args, records, i)
  {
    var r := records[i];
    if r.Log? && args.step.Some? && r.stepEvent.Some? {
      var key := (r.logInstance, r.stepEvent.value);
      if key in steps {
        var m := i + 1;
        var j: nat :| LastStart(records, m, key.0, key.1, j);
        assert forall k: nat :: LastStart(records, m, key.0, key.1, k) ==> k == j;
      }
    }
  }

  lemma SelectedStays(tools: Tools, args: LogsArgs, records: seq<Record>, r: Record, i: nat)
    requires i < |records|
    ensures Selected(tools, args, records + [r], i) <==> Selected(tools, args, records, i)
  {
    var all := records + [r];
    assert all[i] == records[i];
    var m := i + 1;
    forall instance, event, j: nat
      ensures LastStart(all, m, instance, event, j) <==> LastStart(records, m, instance, event, j)
    {
      assert forall k :: 0 <= k < m ==> all[k] == records[k];
    }
  }

  lemma PicksFollow(tools: Tools, args: LogsArgs, records: seq<Record>, r: Record, picks: seq<nat>)
    returns (next: seq<nat>)
    requires Picks(tools, args, records, picks)
    ensures next == if Selected(tools, args, records + [r], |records|) then picks + [|records|] else picks
    ensures Picks(tools, args, records + [r], next)
  {
    hide Selected;
    var all := records + [r];
    forall i | 0 <= i < |records|
      ensures Selected(tools, args, all, i) <==> Selected(tools, args, records, i)
    {
      SelectedStays(tools, args, records, r, i);
    }
    next := if Selected(tools, args, all, |records|) then picks + [|records|] else picks;
    assert forall i :: 0 <= i < |picks| ==> next[i] == picks[i];
    forall i | 0 <= i < |all| && Selected(tools, args, all, i)
      ensures i in next
    {
      if i == |records| {
        assert next[|picks|] == i;
      }
    }
  }

  lemma EmptyLineSays(tools: Tools, args: LogsArgs, p: Progress)
    ensures Handle(tools, args, p, "") == p && IndexStep(OtherEvent, p.steps) == p.steps
    ensures !MatchesFilter(tools, args, OtherEvent, p.steps)
  {
  }

  /** What one line does, from what it says. */
  lemma HandleSays(tools: Tools, args: LogsArgs, p: Progress, line: string, r: Record)
    requires !p.failed && if line == "" then r == OtherEvent else tools.decode(line) == Some(r)
    ensures var steps := IndexStep(r, p.steps);
            Handle(tools, args, p, line) ==
            Progress(steps, p.terminal || r.RunFinished?,
                     p.output + if MatchesFilter(tools, args, r, steps) then [tools.render(line, r)] else [], false)
  {
    hide IndexStep, MatchesFilter;
    EmptyLineSays(tools, args, p);
    assert p.output + [] == p.output;
  }

  lemma AfterFollows(tools: Tools, args: LogsArgs, lines: seq<string>, records: seq<Record>, p: Progress,
                     picks: seq<nat>, line: string, r: Record)
    returns (next: seq<nat>)
    requires |lines| == |records| && After(tools, args, lines, records, p, picks)
    requires if line == "" then r == OtherEvent else tools.decode(line) == Some(r)
    ensures After(tools, args, lines + [line], records + [r], Handle(tools, args, p, line), next)
  {
    hide Handle, MatchesFilter, Selected, IndexStep, StepsAre;
    var all, written := records + [r], lines + [line];
    var after := Handle(tools, args, p, line);
    HandleSays(tools, args, p, line, r);
    StepsFollow(records, r, p.steps);
    FilterIsSelection(tools, args, all, |records|, after.steps);
    next := PicksFollow(tools, args, records, r, picks);
    FinishFollows(records, r);
    forall k | 0 <= k < |next|
      ensures after.output[k] == tools.render(written[next[k]], all[next[k]])
    {
      if k < |picks| {
        assert next[k] == picks[k];
      }
    }
  }

  lemma FinishFollows(records: seq<Record>, r: Record)
    ensures (exists i :: 0 <= i < |records + [r]| && (records + [r])[i].RunFinished?)
       <==> r.RunFinished? || exists i :: 0 <= i < |records| && records[i].RunFinished?
  {
    var all := records + [r];
    assert all[|records|] == r;
    if i :| 0 <= i < |records| && records[i].RunFinished? {
      assert all[i].RunFinished?;
    }
  }

  lemma {:induction false} AfterAll(tools: Tools, args: LogsArgs, lines: seq<string>, records: seq<Record>)
    returns (picks: seq<nat>)
    requires Decoded(tools, lines, records)
    ensures After(tools, args, lines, records, Replay(tools, args, START, Journal(lines)), picks)
    decreases |lines|
  {
    if lines == [] {
      picks := [];
    } else {
      hide After, Handle, Replay;
      var n := |lines| - 1;
      var before := AfterAll(tools, args, lines[..n], records[..n]);
      JournalStep(tools, args, START, lines);
      picks := AfterFollows(tools, args, lines[..n], records[..n], Replay(tools, args, START, Journal(lines[..n])),
                            before, lines[n], records[n]);
      assert lines == lines[..n] + [lines[n]];
      assert records == records[..n] + [records[n]];
    }
  }

  lemma JournalComplete(lines: seq<string>, partial: string)
    requires '\n' !in partial
    ensures Complete(Journal(lines) + partial) == Journal(lines)
  {
    hide CompleteLength;
    var text := Journal(lines) + partial;
    JournalWhole(lines);
    assert text[..|Journal(lines)|] == Journal(lines);
    CompleteUnique(text, |Journal(lines)|);
  }

  /** The batch output of a journal whose lines all decode: the renderings of exactly the selected
      lines, in order, each judged by the steps started up to it; what follows the last newline does
      not matter. */
  lemma BatchShowsSelected(tools: Tools, args: LogsArgs, lines: seq<string>, records: seq<Record>, partial: string)
    returns (picks: seq<nat>)
    requires Decoded(tools, lines, records) && '\n' !in partial
    ensures Picks(tools, args, records, picks)
    ensures var p := Batch(tools, args, Journal(lines) + partial);
            && !p.failed && (p.terminal <==> exists i :: 0 <= i < |records| && records[i].RunFinished?)
            && |p.output| == |picks|
            && forall k :: 0 <= k < |picks| ==> p.output[k] == tools.render(lines[picks[k]], records[picks[k]])
  {
    hide Replay, Complete, StepsAre, Picks, Selected;
    JournalComplete(lines, partial);
    picks := AfterAll(tools, args, lines, records);
  }

  /** From the first line that does not decode on, nothing more is shown. */
  lemma BatchStops(tools: Tools, args: LogsArgs, lines: seq<string>, bad: string, rest: string)
    requires forall i :: 0 <= i < |lines| ==> '\n' !in lines[i]
    requires bad != "" && '\n' !in bad && tools.decode(bad) == None
    ensures var p := Batch(tools, args, Journal(lines + [bad]) + rest);
            p.failed && p.output == Batch(tools, args, Journal(lines)).output
  {
    hide Replay, Complete, IndexStep, MatchesFilter, CompleteLength;
    var front := Journal(lines + [bad]);
    assert (lines + [bad])[..|lines|] == lines;
    JournalWhole(lines + [bad]);
    JournalComplete(lines, "");
    JournalComplete(lines + [bad], "");
    assert Journal(lines) + "" == Journal(lines) && front + "" == front;
    CompleteGrows(front, front + rest);
    JournalStep(tools, args, START, lines + [bad]);
    ReplayAppend(tools, args, START, front, Complete((front + rest)[CompleteLength(front)..]));
    ReplayGrows(tools, args, Replay(tools, args, START, front), Complete((front + rest)[CompleteLength(front)..]));
  }
}
