/** Resolving `vars.NAME`: command line, process environment, `.litci/vars`, and at last GitHub.

    The remote step has no resolver of its own.  It appends what it fetched to the dotenv list
    and runs the local resolution again, so the claims about precedence and about what can
    still be missing span two passes over different inputs. */
module Vars {
  import opened Digraph
  import opened Names
  import opened Common
  import Dotenv

  type Span = nat
  type Entries = seq<(string, string)>
  type Environment = seq<(string, Option<string>)>

  const MAX_VAR_VALUE_BYTES: nat := 48 * 1024

  /** Literal names with the places they are used at, and uses of the whole map. */
  datatype Extraction = Extraction(vars: seq<(string, seq<Span>)>, hasDynamicLookup: bool, dynamicVars: seq<Span>)

  /** The process environment lists each variable with its value, `None` when not Unicode. */
  datatype Sources = Sources(extraction: Extraction, cli: Entries, env: Environment, dotenv: Entries)

  datatype ProcessValue =
    | Missing
    | Value(value: string)
    | Ambiguous(spellings: seq<string>)
    | NonUnicode(spelling: string)

  datatype MissingVar = MissingVar(name: string, firstUse: Span)

  datatype InvalidVar = InvalidVar(name: string, firstUse: Span, reason: string)

  datatype Findings = Findings(
    entries: Entries, oversized: seq<(string, nat)>, ambiguous: seq<(string, seq<string>)>,
    nonUnicode: seq<(string, string)>, missing: seq<MissingVar>)

  datatype VarError = VarError(invalid: seq<InvalidVar>, findings: Findings, dynamicLookup: Option<Span>)

  function Canonical(name: string): string {
    if name == "" then "" else [Dotenv.Upper(name[0])] + Canonical(name[1..])
  }

  predicate Fits(v: string) { Utf8Length(v) <= MAX_VAR_VALUE_BYTES }

  function FirstUse(spans: seq<Span>): Option<Span> {
    if spans == [] then None else Some(spans[0])
  }

  // ----- one name

  /** The last assignment to a name, in any spelling. */
  function Last(entries: Entries, name: string): Option<string> {
    if entries == [] then None
    else
      var e := entries[|entries| - 1];
      if Canonical(e.0) == name then Some(e.1) else Last(entries[..|entries| - 1], name)
  }

  function Matching(env: Environment, name: string): Environment {
    if env == [] then []
    else
      var e := env[|env| - 1];
      Matching(env[..|env| - 1], name) + if Canonical(e.0) == name then [e] else []
  }

  function Spelling(e: (string, Option<string>)): string { e.0 }

  function Spellings(env: Environment): seq<string> {
    if env == [] then [] else [env[0].0] + Spellings(env[1..])
  }

  /** What the environment says about a name, given the variables whose name it is. */
  function Judge(found: Environment): ProcessValue
    requires found != []
  {
    if |found| > 1 then Ambiguous(Spellings(Sort(found, Spelling)))
    else if found[0].1.Some? then Value(found[0].1.value)
    else NonUnicode(found[0].0)
  }

  /** The first of command line, process environment and dotenv file that knows the name. */
  function Lookup(src: Sources, name: string): ProcessValue {
    if Last(src.cli, name).Some? then Value(Last(src.cli, name).value)
    else if Matching(src.env, name) != [] then Judge(Matching(src.env, name))
    else if Last(src.dotenv, name).Some? then Value(Last(src.dotenv, name).value)
    else Missing
  }

  /** How the workflow first spells a name it uses literally, and where. */
  function Literal(vars: seq<(string, seq<Span>)>, name: string): Option<(string, Option<Span>)> {
    if vars == [] then None
    else
      var before := Literal(vars[..|vars| - 1], name);
      var v := vars[|vars| - 1];
      if before.Some? then before
      else if Dotenv.ConfigurationName(v.0).None? && Canonical(v.0) == name then Some((v.0, FirstUse(v.1)))
      else None
  }

  function Invalid(vars: seq<(string, seq<Span>)>): seq<InvalidVar> {
    if vars == [] then []
    else
      var v := vars[|vars| - 1];
      var reason := Dotenv.ConfigurationName(v.0);
      Invalid(vars[..|vars| - 1])
      + if reason.Some? && v.1 != [] then [InvalidVar(v.0, v.1[0], reason.value)] else []
  }

  predicate IsCandidate(src: Sources, name: string) {
    Literal(src.extraction.vars, name).Some? || Last(src.dotenv, name).Some? || Last(src.cli, name).Some?
  }

  /** The workflow uses the name literally and no local source knows it. */
  predicate IsMissing(src: Sources, name: string) {
    && Literal(src.extraction.vars, name).Some? && Literal(src.extraction.vars, name).value.1.Some?
    && Lookup(src, name) == Missing
  }

  function MissingOf(src: Sources, name: string): MissingVar
    requires IsMissing(src, name)
  {
    MissingVar(Literal(src.extraction.vars, name).value.0, Literal(src.extraction.vars, name).value.1.value)
  }

  // ----- all names

  const NOTHING: Findings := Findings([], [], [], [], [])

  function Note(f: Findings, src: Sources, name: string): Findings {
    match Lookup(src, name)
    case Value(v) =>
      if Fits(v) then f.(entries := f.entries + [(name, v)]) else f.(oversized := f.oversized + [(name, Utf8Length(v))])
    case Ambiguous(spellings) => f.(ambiguous := f.ambiguous + [(name, spellings)])
    case NonUnicode(spelling) => f.(nonUnicode := f.nonUnicode + [(name, spelling)])
    case Missing => if IsMissing(src, name) then f.(missing := f.missing + [MissingOf(src, name)]) else f
  }

  function Collect(src: Sources, order: seq<string>): Findings {
    if order == [] then NOTHING
    else Note(Collect(src, order[..|order| - 1]), src, order[|order| - 1])
  }

  /** The candidate names, each once, in ascending order. */
  ghost predicate IsOrder(src: Sources, order: seq<string>) {
    && SortedBy(order, (n: string) => n) && Distinct(order)
    && forall n :: n in order <==> IsCandidate(src, n)
  }

  function DynamicLookup(src: Sources, complete: bool): Option<Span> {
    if src.extraction.hasDynamicLookup && src.cli == [] && !complete then FirstUse(src.extraction.dynamicVars) else None
  }

  function Conclude(src: Sources, complete: bool, order: seq<string>): Result<Entries, VarError> {
    var invalid := Invalid(src.extraction.vars);
    var f := Collect(src, order);
    var dynamicLookup := DynamicLookup(src, complete);
    if invalid == [] && f.oversized == [] && f.ambiguous == [] && f.nonUnicode == [] && f.missing == []
       && dynamicLookup.None?
    then Ok(f.entries)
    else Err(VarError(invalid, f, dynamicLookup))
  }

  /** Nothing is wrong with a name's local value. */
  predicate IsSound(src: Sources, name: string) {
    match Lookup(src, name)
    case Value(v) => Fits(v)
    case Missing => true
    case _ => false
  }

  lemma {:induction false} CollectEntries(src: Sources, order: seq<string>, name: string, v: string)
    ensures (name, v) in Collect(src, order).entries <==> name in order && Lookup(src, name) == Value(v) && Fits(v)
    decreases |order|
  {
    hide Lookup, Fits, IsMissing;
    if order != [] {
      var last := |order| - 1;
      CollectEntries(src, order[..last], name, v);
      assert order == order[..last] + [order[last]];
    }
  }

  lemma {:induction false} CollectSound(src: Sources, order: seq<string>)
    ensures var f := Collect(src, order);
            (f.oversized == [] && f.ambiguous == [] && f.nonUnicode == []) <==>
              forall n :: n in order ==> IsSound(src, n)
    decreases |order|
  {
    hide Lookup, Fits, IsMissing;
    if order != [] {
      var last := |order| - 1;
      CollectSound(src, order[..last]);
      assert forall n :: n in order <==> n in order[..last] || n == order[last];
      assert order[last] in order;
    }
  }

  lemma {:induction false} CollectMissing(src: Sources, order: seq<string>, m: MissingVar)
    ensures m in Collect(src, order).missing <==> exists n :: n in order && IsMissing(src, n) && MissingOf(src, n) == m
    decreases |order|
  {
    hide Lookup, Fits, MissingOf;
    if order != [] {
      var last := |order| - 1;
      CollectMissing(src, order[..last], m);
      assert order == order[..last] + [order[last]];
    }
  }

  // ----- the local resolution as written

  ghost predicate Indexes(index: map<string, string>, entries: Entries) {
    forall n :: (n in index <==> Last(entries, n).Some?) && (n in index ==> index[n] == Last(entries, n).value)
  }

  method IndexLast(entries: Entries) returns (index: map<string, string>)
    ensures Indexes(index, entries)
    ensures index == map[] <==> entries == []
  {
    index := map[];
    for k := 0 to |entries|
      invariant Indexes(index, entries[..k])
      invariant k > 0 ==> index != map[]
    {
      assert entries[..k + 1][..k] == entries[..k];
      index := index[Canonical(entries[k].0) := entries[k].1];
      assert Canonical(entries[k].0) in index;
    }
    assert entries[..|entries|] == entries;
  }

  ghost predicate Grouped(matches: map<string, Environment>, env: Environment, names: set<string>) {
    forall n ::
      && (n in matches <==> n in names && Matching(env, n) != [])
      && (n in matches ==> matches[n] == Matching(env, n))
  }

  ghost predicate ProcessIndexes(index: map<string, ProcessValue>, env: Environment, names: set<string>) {
    forall n ::
      && (n in index <==> n in names && Matching(env, n) != [])
      && (n in index ==> index[n] == Judge(Matching(env, n)))
  }

  /** Scans the environment once, keeping only the candidate names. */
  method IndexProcessValues(env: Environment, names: set<string>) returns (index: map<string, ProcessValue>)
    ensures ProcessIndexes(index, env, names)
  {
    hide Judge;
    var matches: map<string, Environment> := map[];
    for k := 0 to |env|
      invariant Grouped(matches, env[..k], names)
    {
      assert env[..k + 1][..k] == env[..k];
      var name := Canonical(env[k].0);
      if name in names {
        matches := matches[name := (if name in matches then matches[name] else []) + [env[k]]];
      }
    }
    assert env[..|env|] == env;
    index := map[];
    var todo := matches.Keys;
    while todo != {}
      invariant todo <= matches.Keys && Grouped(matches, env, names)
      invariant forall n :: n in index <==> n in matches && n !in todo
      invariant forall n :: n in index ==> index[n] == Judge(Matching(env, n))
      decreases |todo|
    {
      var name :| name in todo;
      index := index[name := Judge(matches[name])];
      todo := todo - {name};
    }
  }

  /** The process value is taken out of its index, since no name is asked for twice. */
  method ResolveOne(name: string, cli: map<string, string>, process: map<string, ProcessValue>,
                    dotenv: map<string, string>)
    returns (value: ProcessValue, rest: map<string, ProcessValue>)
    ensures value == if name in cli then Value(cli[name]) else if name in process then process[name]
                     else if name in dotenv then Value(dotenv[name]) else Missing
    ensures forall n :: n != name ==> (n in rest <==> n in process) && (n in rest ==> rest[n] == process[n])
  {
    rest := process;
    if name in cli {
      return Value(cli[name]), rest;
    }
    if name in process {
      rest := process - {name};
      return process[name], rest;
    }
    value := if name in dotenv then Value(dotenv[name]) else Missing;
  }

  ghost predicate Extracts(extracted: map<string, (string, Option<Span>)>, vars: seq<(string, seq<Span>)>) {
    forall n ::
      && (n in extracted <==> Literal(vars, n).Some?)
      && (n in extracted ==> extracted[n] == Literal(vars, n).value)
  }

  method ExtractLiterals(vars: seq<(string, seq<Span>)>)
    returns (extracted: map<string, (string, Option<Span>)>, invalid: seq<InvalidVar>)
    ensures Extracts(extracted, vars) && invalid == Invalid(vars)
  {
    extracted, invalid := map[], [];
    for k := 0 to |vars|
      invariant Extracts(extracted, vars[..k]) && invalid == Invalid(vars[..k])
    {
      assert vars[..k + 1][..k] == vars[..k];
      var v := vars[k];
      var reason := Dotenv.ConfigurationName(v.0);
      if reason.None? {
        if Canonical(v.0) !in extracted {
          extracted := extracted[Canonical(v.0) := (v.0, FirstUse(v.1))];
        }
      } else if v.1 != [] {
        invalid := invalid + [InvalidVar(v.0, v.1[0], reason.value)];
      }
    }
    assert vars[..|vars|] == vars;
  }

  /** The names in ascending order. */
  method Ascending(names: set<string>) returns (order: seq<string>)
    ensures SortedBy(order, (n: string) => n) && Distinct(order) && forall n :: n in order <==> n in names
  {
    var todo, list := names, [];
    while todo != {}
      invariant todo <= names && Distinct(list) && forall n :: n in list <==> n in names && n !in todo
      decreases |todo|
    {
      var name :| name in todo;
      list := list + [name];
      todo := todo - {name};
    }
    var key := (n: string) => n;
    SortMembers(list, key);
    SortDistinct(list, key);
    order := Sort(list, key);
  }

  /** Puts one looked-up name where it belongs. */
  method File(ghost src: Sources, f: Findings, name: string, value: ProcessValue,
              extracted: map<string, (string, Option<Span>)>)
    returns (g: Findings)
    requires value == Lookup(src, name) && Extracts(extracted, src.extraction.vars)
    ensures g == Note(f, src, name)
  {
    hide Lookup;
    match value {
      case Value(v) =>
        if Utf8Length(v) > MAX_VAR_VALUE_BYTES {
          return f.(oversized := f.oversized + [(name, Utf8Length(v))]);
        }
        return f.(entries := f.entries + [(name, v)]);
      case Ambiguous(spellings) =>
        return f.(ambiguous := f.ambiguous + [(name, spellings)]);
      case NonUnicode(spelling) =>
        return f.(nonUnicode := f.nonUnicode + [(name, spelling)]);
      case Missing =>
        if name in extracted && extracted[name].1.Some? {
          return f.(missing := f.missing + [MissingVar(extracted[name].0, extracted[name].1.value)]);
        }
        return f;
    }
  }

  /** Looks up one name and files it. */
  method Visit(ghost src: Sources, ghost names: set<string>, list: seq<string>, k: nat, f: Findings,
               extracted: map<string, (string, Option<Span>)>, cli: map<string, string>,
               process: map<string, ProcessValue>, dotenv: map<string, string>)
    returns (g: Findings, rest: map<string, ProcessValue>)
    requires k < |list| && Distinct(list) && list[k] in names
    requires Extracts(extracted, src.extraction.vars) && Indexes(cli, src.cli) && Indexes(dotenv, src.dotenv)
    requires f == Collect(src, list[..k]) && StillIndexed(process, src.env, names, list, k)
    ensures g == Collect(src, list[..k + 1]) && StillIndexed(rest, src.env, names, list, k + 1)
  {
    hide Lookup, Collect, Note, Indexes, Extracts, StillIndexed, FromProcess, Distinct;
    var name := list[k];
    assert list[..k + 1] == list[..k] + [name];
    NextIndexed(process, src.env, names, list, k);
    CollectStep(src, list[..k], name);
    var value;
    value, rest := ResolveOne(name, cli, process, dotenv);
    LookedUp(src, name, cli, process, dotenv, value);
    g := File(src, f, name, value, extracted);
    TakenOut(process, rest, src.env, names, list, k);
  }

  /** Looks up all names in order. */
  method VisitAll(ghost src: Sources, env: Environment, names: set<string>, list: seq<string>,
                  extracted: map<string, (string, Option<Span>)>, cli: map<string, string>, dotenv: map<string, string>)
    returns (f: Findings)
    requires env == src.env && Distinct(list) && forall i :: 0 <= i < |list| ==> list[i] in names
    requires Extracts(extracted, src.extraction.vars) && Indexes(cli, src.cli) && Indexes(dotenv, src.dotenv)
    ensures f == Collect(src, list)
  {
    hide Collect, Indexes, Extracts, ProcessIndexes, StillIndexed, Distinct;
    var process := IndexProcessValues(env, names);
    f := NOTHING;
    CollectNothing(src);
    AllIndexed(process, src.env, names, list);
    for k := 0 to |list|
      invariant f == Collect(src, list[..k])
      invariant StillIndexed(process, src.env, names, list, k)
    {
      f, process := Visit(src, names, list, k, f, extracted, cli, process, dotenv);
    }
    assert list[..|list|] == list;
  }

  method ResolveVars(src: Sources, complete: bool) returns (result: Result<Entries, VarError>)
    ensures exists order :: IsOrder(src, order) && result == Conclude(src, complete, order)
  {
    hide Collect, IsCandidate, Indexes, Extracts;
    var extracted, invalid := ExtractLiterals(src.extraction.vars);
    var cli := IndexLast(src.cli);
    var dotenv := IndexLast(src.dotenv);
    var names := extracted.Keys + dotenv.Keys + cli.Keys;
    var list := Ascending(names);
    Candidates(src, extracted, dotenv, cli);
    assert IsOrder(src, list);
    assert forall i :: 0 <= i < |list| ==> list[i] in list;
    var f := VisitAll(src, src.env, names, list, extracted, cli, dotenv);
    var dynamicLookup :=
      if src.extraction.hasDynamicLookup && cli == map[] && !complete then FirstUse(src.extraction.dynamicVars)
      else None;
    if invalid == [] && f.oversized == [] && f.ambiguous == [] && f.nonUnicode == [] && f.missing == []
       && dynamicLookup.None? {
      result := Ok(f.entries);
    } else {
      result := Err(VarError(invalid, f, dynamicLookup));
    }
    assert result == Conclude(src, complete, list);
  }

  ghost predicate FromProcess(process: map<string, ProcessValue>, env: Environment, n: string) {
    (n in process <==> Matching(env, n) != []) && (n in process ==> process[n] == Judge(Matching(env, n)))
  }

  /** The names still to be looked up are untouched in the process index. */
  ghost predicate StillIndexed(process: map<string, ProcessValue>, env: Environment, names: set<string>,
                               list: seq<string>, k: nat)
    requires k <= |list|
  {
    forall n :: n in names && n !in list[..k] ==> FromProcess(process, env, n)
  }

  lemma AllIndexed(process: map<string, ProcessValue>, env: Environment, names: set<string>, list: seq<string>)
    requires ProcessIndexes(process, env, names)
    ensures StillIndexed(process, env, names, list, 0)
  {
  }

  lemma NextIndexed(process: map<string, ProcessValue>, env: Environment, names: set<string>, list: seq<string>, k: nat)
    requires k < |list| && Distinct(list) && list[k] in names && StillIndexed(process, env, names, list, k)
    ensures FromProcess(process, env, list[k])
  {
    assert list[k] !in list[..k];
  }

  lemma TakenOut(process: map<string, ProcessValue>, rest: map<string, ProcessValue>, env: Environment,
                 names: set<string>,
                 list: seq<string>, k: nat)
    requires k < |list| && StillIndexed(process, env, names, list, k)
    requires forall n :: n != list[k] ==> (n in rest <==> n in process) && (n in rest ==> rest[n] == process[n])
    ensures StillIndexed(rest, env, names, list, k + 1)
  {
    assert list[..k + 1] == list[..k] + [list[k]];
  }

  lemma Candidates(src: Sources, extracted: map<string, (string, Option<Span>)>, dotenv: map<string, string>,
                   cli: map<string, string>)
    requires Extracts(extracted, src.extraction.vars) && Indexes(dotenv, src.dotenv) && Indexes(cli, src.cli)
    ensures forall n :: IsCandidate(src, n) <==> n in extracted.Keys + dotenv.Keys + cli.Keys
  {
  }

  lemma LookedUp(src: Sources, name: string, cli: map<string, string>, process: map<string, ProcessValue>,
                 dotenv: map<string, string>,
                 value: ProcessValue)
    requires Indexes(cli, src.cli) && Indexes(dotenv, src.dotenv) && FromProcess(process, src.env, name)
    requires value == if name in cli then Value(cli[name]) else if name in process then process[name]
                      else if name in dotenv then Value(dotenv[name]) else Missing
    ensures value == Lookup(src, name)
  {
  }

  lemma CollectNothing(src: Sources)
    ensures Collect(src, []) == NOTHING
  {
  }

  lemma CollectStep(src: Sources, order: seq<string>, name: string)
    ensures Collect(src, order + [name]) == Note(Collect(src, order), src, name)
  {
    assert (order + [name])[..|order|] == order;
  }

  // ----- the remote step

  /** GitHub's answers: single variables by name, and the two complete maps. */
  datatype Remote = Remote(
    repoVariable: string -> Result<Option<string>, string>,
    orgVariable: string -> Result<Option<string>, string>,
    repoVariables: Result<map<string, string>, string>,
    orgVariables: Result<map<string, string>, string>)

  datatype VarsOutcome =
    | Resolved(entries: Entries)
    | LocalError(error: VarError)
    | AuthRequired(error: VarError)
    | RemoteError(message: string)

  /** Repository before organization; absent from both is empty. */
  function RemoteValue(remote: Remote, name: string): Result<string, string> {
    match remote.repoVariable(name)
    case Err(e) => Err(e)
    case Ok(Some(v)) => Ok(v)
    case Ok(None) =>
      match remote.orgVariable(name)
      case Err(e) => Err(e)
      case Ok(Some(v)) => Ok(v)
      case Ok(None) => Ok("")
  }

  ghost predicate Answers(remote: Remote, missing: seq<MissingVar>, fetched: Entries) {
    && |fetched| == |missing|
    && forall i :: 0 <= i < |missing| ==>
         fetched[i].0 == missing[i].name && RemoteValue(remote, missing[i].name) == Ok(fetched[i].1)
  }

  method FetchNamed(remote: Remote, missing: seq<MissingVar>) returns (result: Result<Entries, string>)
    ensures result.Ok? ==> Answers(remote, missing, result.value)
    ensures result.Err? ==> exists m :: m in missing && RemoteValue(remote, m.name).Err?
  {
    var entries: Entries := [];
    for k := 0 to |missing|
      invariant Answers(remote, missing[..k], entries)
    {
      var m := missing[k];
      assert m in missing;
      var repo := remote.repoVariable(m.name);
      if repo.Err? {
        return Err(repo.error);
      }
      var value := "";
      if repo.value.Some? {
        value := repo.value.value;
      } else {
        var org := remote.orgVariable(m.name);
        if org.Err? {
          return Err(org.error);
        }
        value := if org.value.Some? then org.value.value else "";
      }
      entries := entries + [(m.name, value)];
    }
    assert missing[..|missing|] == missing;
    return Ok(entries);
  }

  /** Every key once, in whatever order the hash map yields them. */
  ghost predicate Enumerates(entries: Entries, all: map<string, string>) {
    EnumeratesBut(entries, all, {})
  }

  ghost predicate EnumeratesBut(entries: Entries, all: map<string, string>, todo: set<string>) {
    && (forall i, j :: 0 <= i < j < |entries| ==> entries[i].0 != entries[j].0)
    && (forall i :: 0 <= i < |entries| ==>
          entries[i].0 in all && entries[i].0 !in todo && all[entries[i].0] == entries[i].1)
    && (forall k :: k in all && k !in todo ==> (k, all[k]) in entries)
  }

  lemma EnumeratesMore(entries: Entries, all: map<string, string>, todo: set<string>, key: string)
    requires EnumeratesBut(entries, all, todo) && key in todo && key in all
    ensures EnumeratesBut(entries + [(key, all[key])], all, todo - {key})
  {
    var longer := entries + [(key, all[key])];
    assert longer[|entries|] == (key, all[key]);
    assert forall e :: e in entries ==> e in longer;
  }

  method FetchCompleteMap(remote: Remote) returns (result: Result<Entries, string>)
    ensures result.Ok? <==> remote.orgVariables.Ok? && remote.repoVariables.Ok?
    ensures result.Ok? ==> Enumerates(result.value, remote.orgVariables.value + remote.repoVariables.value)
  {
    if remote.orgVariables.Err? {
      return Err(remote.orgVariables.error);
    }
    if remote.repoVariables.Err? {
      return Err(remote.repoVariables.error);
    }
    var entries := ListEntries(remote.orgVariables.value + remote.repoVariables.value);
    return Ok(entries);
  }

  /** The entries of a map, one by one. */
  method ListEntries(all: map<string, string>) returns (entries: Entries)
    ensures Enumerates(entries, all)
  {
    hide EnumeratesBut;
    entries := [];
    var todo := all.Keys;
    NothingEnumerated(all);
    while todo != {}
      invariant todo <= all.Keys && EnumeratesBut(entries, all, todo)
      decreases |todo|
    {
      var key :| key in todo;
      EnumeratesMore(entries, all, todo, key);
      entries := entries + [(key, all[key])];
      todo := todo - {key};
    }
  }

  lemma NothingEnumerated(all: map<string, string>)
    ensures EnumeratesBut([], all, all.Keys)
  {
  }

  predicate IsHard(e: VarError) {
    e.invalid != [] || e.findings.oversized != [] || e.findings.ambiguous != [] || e.findings.nonUnicode != []
  }

  // ----- the second pass

  function With(src: Sources, fetched: Entries): Sources {
    src.(dotenv := src.dotenv + fetched)
  }

  lemma {:induction false} LastAppend(a: Entries, b: Entries, name: string)
    ensures Last(a + b, name) == if Last(b, name).Some? then Last(b, name) else Last(a, name)
    decreases |b|
  {
    if b == [] {
      assert a + b == a;
    } else {
      assert (a + b)[..|a + b| - 1] == a + b[..|b| - 1];
      LastAppend(a, b[..|b| - 1], name);
    }
  }

  lemma {:induction false} LastFound(entries: Entries, name: string)
    ensures Last(entries, name).Some? ==>
              exists i ::
                0 <= i < |entries| && Canonical(entries[i].0) == name && entries[i].1 == Last(entries, name).value
    ensures Last(entries, name).None? ==> forall i :: 0 <= i < |entries| ==> Canonical(entries[i].0) != name
    decreases |entries|
  {
    hide Canonical;
    if entries != [] {
      var last := |entries| - 1;
      if Canonical(entries[last].0) != name {
        var front := entries[..last];
        LastFound(front, name);
        if Last(front, name).Some? {
          var i :| 0 <= i < |front| && Canonical(front[i].0) == name && front[i].1 == Last(front, name).value;
          assert entries[i] == front[i];
        } else {
          forall i | 0 <= i < |entries|
            ensures Canonical(entries[i].0) != name
          {
            if i < last {
              assert entries[i] == front[i];
            }
          }
        }
      }
    }
  }

  lemma {:induction false} LiteralSpelling(vars: seq<(string, seq<Span>)>, name: string)
    ensures Literal(vars, name).Some? ==> Canonical(Literal(vars, name).value.0) == name
    decreases |vars|
  {
    if vars != [] {
      LiteralSpelling(vars[..|vars| - 1], name);
    }
  }

  /** What was fetched says something about exactly the missing names. */
  lemma FetchedNames(src: Sources, order: seq<string>, remote: Remote, fetched: Entries, name: string)
    requires IsOrder(src, order) && Answers(remote, Collect(src, order).missing, fetched)
    ensures !IsMissing(src, name) ==> Last(fetched, name).None?
    ensures IsMissing(src, name) ==>
              && Last(fetched, name).Some?
              && RemoteValue(remote, MissingOf(src, name).name) == Ok(Last(fetched, name).value)
  {
    hide Lookup, Collect, RemoteValue, Last, Canonical;
    var missing := Collect(src, order).missing;
    LastFound(fetched, name);
    if Last(fetched, name).Some? {
      var i :| 0 <= i < |fetched| && Canonical(fetched[i].0) == name && fetched[i].1 == Last(fetched, name).value;
      CollectMissing(src, order, missing[i]);
      var n :| n in order && IsMissing(src, n) && MissingOf(src, n) == missing[i];
      LiteralSpelling(src.extraction.vars, n);
    } else if IsMissing(src, name) {
      assert IsCandidate(src, name);
      CollectMissing(src, order, MissingOf(src, name));
      var i :| 0 <= i < |missing| && missing[i] == MissingOf(src, name);
      LiteralSpelling(src.extraction.vars, name);
    }
  }

  /** What a name must resolve to: the first of command line, process, dotenv file, repository,
      organization, and the empty string. */
  function Chain(src: Sources, remote: Remote, name: string): ProcessValue {
    if IsMissing(src, name) && RemoteValue(remote, MissingOf(src, name).name).Ok?
    then Value(RemoteValue(remote, MissingOf(src, name).name).value)
    else Lookup(src, name)
  }

  lemma SecondLookup(src: Sources, order: seq<string>, remote: Remote, fetched: Entries, name: string)
    requires IsOrder(src, order) && Answers(remote, Collect(src, order).missing, fetched)
    ensures Lookup(With(src, fetched), name) == Chain(src, remote, name)
    ensures IsCandidate(With(src, fetched), name) <==> IsCandidate(src, name)
    ensures !IsMissing(With(src, fetched), name)
  {
    hide Collect, RemoteValue, Literal, Matching, Sort, Spellings;
    FetchedNames(src, order, remote, fetched, name);
    LastAppend(src.dotenv, fetched, name);
  }

  predicate RemoteFits(remote: Remote, name: string) {
    RemoteValue(remote, name).Ok? && Fits(RemoteValue(remote, name).value)
  }

  lemma SecondSound(src: Sources, order: seq<string>, remote: Remote, fetched: Entries, name: string)
    requires IsOrder(src, order) && Answers(remote, Collect(src, order).missing, fetched) && IsSound(src, name)
    ensures IsSound(With(src, fetched), name) <==>
              (IsMissing(src, name) ==> RemoteFits(remote, MissingOf(src, name).name))
  {
    hide Collect, RemoteValue, Lookup, Literal, IsOrder, Fits;
    SecondLookup(src, order, remote, fetched, name);
    FetchedNames(src, order, remote, fetched, name);
  }

  lemma NoneMissing(src: Sources, order: seq<string>)
    requires forall n :: n in order ==> !IsMissing(src, n)
    ensures Collect(src, order).missing == []
  {
    hide Collect, IsMissing;
    var missing := Collect(src, order).missing;
    if missing != [] {
      CollectMissing(src, order, missing[0]);
    }
  }

  /** The fetch of the missing names leaves nothing missing, whatever the names and values: only
      a value GitHub itself could not store can still stop the resolution. */
  lemma NamedFetchResolves(src: Sources, order: seq<string>, order': seq<string>, remote: Remote, fetched: Entries)
    requires IsOrder(src, order) && Answers(remote, Collect(src, order).missing, fetched)
    requires Invalid(src.extraction.vars) == [] && forall n :: n in order ==> IsSound(src, n)
    requires IsOrder(With(src, fetched), order')
    ensures Conclude(With(src, fetched), true, order').Ok? <==>
              forall n :: IsMissing(src, n) ==> RemoteFits(remote, MissingOf(src, n).name)
    ensures Conclude(With(src, fetched), true, order').Err? ==>
              var e := Conclude(With(src, fetched), true, order').error;
              e.findings.missing == [] && e.invalid == [] && e.dynamicLookup.None?
  {
    hide Collect, RemoteFits, IsMissing, IsSound, MissingOf, IsCandidate, Answers;
    var src' := With(src, fetched);
    forall n
      ensures IsCandidate(src', n) <==> IsCandidate(src, n)
      ensures !IsMissing(src', n)
    {
      SecondLookup(src, order, remote, fetched, n);
    }
    NoneMissing(src', order');
    CollectSound(src', order');
    forall n | n in order
      ensures IsSound(src', n) <==> (IsMissing(src, n) ==> RemoteFits(remote, MissingOf(src, n).name))
    {
      SecondSound(src, order, remote, fetched, n);
    }
    forall n
      ensures IsMissing(src, n) ==> n in order
    {
      MissingIsCandidate(src, n);
    }
  }

  lemma MissingIsCandidate(src: Sources, name: string)
    ensures IsMissing(src, name) ==> IsCandidate(src, name)
  {
  }

  /** And then every name has the first value the chain offers. */
  lemma NamedFetchValues(src: Sources, order: seq<string>, order': seq<string>, remote: Remote, fetched: Entries,
                         name: string, v: string)
    requires IsOrder(src, order) && Answers(remote, Collect(src, order).missing, fetched)
    requires IsOrder(With(src, fetched), order') && Conclude(With(src, fetched), true, order').Ok?
    ensures (name, v) in Conclude(With(src, fetched), true, order').value <==>
              IsCandidate(src, name) && Chain(src, remote, name) == Value(v)
  {
    hide Collect, Lookup, IsCandidate, Chain, Answers, Fits, IsMissing;
    var src' := With(src, fetched);
    SecondLookup(src, order, remote, fetched, name);
    CollectEntries(src', order', name, v);
    CollectSound(src', order');
  }

  // ----- the complete map

  /** What the entries of a fetched map say about a name: the value under one of its spellings. */
  lemma EnumeratedLast(fetched: Entries, all: map<string, string>, name: string)
    requires Enumerates(fetched, all)
    ensures Last(fetched, name).Some? <==> exists k :: k in all && Canonical(k) == name
    ensures Last(fetched, name).Some? ==>
              exists k :: k in all && Canonical(k) == name && all[k] == Last(fetched, name).value
  {
    hide Canonical, Last;
    LastFound(fetched, name);
    forall k | k in all && Canonical(k) == name
      ensures Last(fetched, name).Some?
    {
      var i :| 0 <= i < |fetched| && fetched[i] == (k, all[k]);
      assert Canonical(fetched[i].0) == name;
    }
  }

  /** When the map spells its names in capitals, as GitHub does, it is the value under the name. */
  lemma CanonicalLast(fetched: Entries, all: map<string, string>, name: string)
    requires Enumerates(fetched, all) && forall k :: k in all ==> Canonical(k) == k
    ensures Last(fetched, name) == if name in all then Some(all[name]) else None
  {
    hide Canonical, Last, Enumerates;
    EnumeratedLast(fetched, all, name);
  }

  /** What a name resolves to once `fetched` has been appended: the command line and the process
      come first, but the dotenv file comes last. */
  function Overlaid(src: Sources, fetched: Entries, name: string): ProcessValue {
    if Last(src.cli, name).None? && Matching(src.env, name) == [] && Last(fetched, name).Some?
    then Value(Last(fetched, name).value)
    else Lookup(src, name)
  }

  lemma OverlaidLookup(src: Sources, fetched: Entries, name: string)
    ensures Lookup(With(src, fetched), name) == Overlaid(src, fetched, name)
    ensures IsCandidate(With(src, fetched), name) <==> IsCandidate(src, name) || Last(fetched, name).Some?
    ensures IsMissing(With(src, fetched), name) <==> IsMissing(src, name) && Last(fetched, name).None?
  {
    hide Matching, Sort, Spellings, Literal, Last, SortedBy;
    LastAppend(src.dotenv, fetched, name);
  }

  /** Nothing stands in the way once `fetched` is known. */
  ghost predicate Covered(src: Sources, fetched: Entries) {
    && Invalid(src.extraction.vars) == []
    && (forall n :: IsMissing(src, n) ==> Last(fetched, n).Some?)
    && (forall n :: IsCandidate(src, n) || Last(fetched, n).Some? ==> Stores(Overlaid(src, fetched, n)))
  }

  predicate Stores(value: ProcessValue) {
    match value
    case Value(v) => Fits(v)
    case Missing => true
    case _ => false
  }

  /** Whatever was fetched, the second pass succeeds exactly when every literal name that no
      local source knows was fetched, and every value can be stored. */
  lemma CompleteFetchResolves(src: Sources, fetched: Entries, order: seq<string>)
    requires IsOrder(With(src, fetched), order)
    ensures Conclude(With(src, fetched), true, order).Ok? <==> Covered(src, fetched)
  {
    hide Collect, Lookup, IsMissing, Overlaid, Literal, IsCandidate, Last, Fits;
    var src' := With(src, fetched);
    forall n
      ensures IsMissing(src', n) <==> IsMissing(src, n) && Last(fetched, n).None?
      ensures IsCandidate(src', n) <==> IsCandidate(src, n) || Last(fetched, n).Some?
      ensures IsSound(src', n) <==> Stores(Overlaid(src, fetched, n))
      ensures IsMissing(src', n) ==> IsCandidate(src', n)
    {
      OverlaidLookup(src, fetched, n);
      MissingIsCandidate(src', n);
    }
    CollectSound(src', order);
    MissingListed(src', order);
  }

  lemma MissingListed(src: Sources, order: seq<string>)
    ensures Collect(src, order).missing == [] <==> forall n :: n in order ==> !IsMissing(src, n)
  {
    hide Collect, IsMissing, MissingOf;
    forall n | n in order && IsMissing(src, n)
      ensures Collect(src, order).missing != []
    {
      CollectMissing(src, order, MissingOf(src, n));
    }
    if forall n :: n in order ==> !IsMissing(src, n) {
      NoneMissing(src, order);
    }
  }

  lemma CompleteFetchValues(src: Sources, fetched: Entries, order: seq<string>, name: string, v: string)
    requires IsOrder(With(src, fetched), order) && Conclude(With(src, fetched), true, order).Ok?
    ensures (name, v) in Conclude(With(src, fetched), true, order).value <==>
              (IsCandidate(src, name) || Last(fetched, name).Some?) && Overlaid(src, fetched, name) == Value(v)
  {
    hide Collect, Lookup, IsCandidate, Overlaid, Literal, Fits, IsMissing, Last;
    OverlaidLookup(src, fetched, name);
    CollectEntries(With(src, fetched), order, name, v);
    CollectSound(With(src, fetched), order);
  }

  /** Appending overrides no local value exactly when nothing fetched contradicts a dotenv entry
      that is in force.  The callers see to that: a dynamic lookup is fetched for only when there
      is no dotenv file, and the list is then empty. */
  lemma LocalBeatsRemote(src: Sources, fetched: Entries)
    ensures (forall n :: Lookup(src, n).Value? ==> Lookup(With(src, fetched), n) == Lookup(src, n)) <==>
            (forall n :: InForce(src, n) && Last(fetched, n).Some? ==> Last(fetched, n) == Last(src.dotenv, n))
  {
    hide Matching, Last, Sort, Spellings, SortedBy;
    forall n
      ensures (Lookup(src, n).Value? ==> Lookup(With(src, fetched), n) == Lookup(src, n)) <==>
              (InForce(src, n) && Last(fetched, n).Some? ==> Last(fetched, n) == Last(src.dotenv, n))
    {
      OverlaidLookup(src, fetched, n);
    }
  }

  /** The dotenv entry decides what the name resolves to. */
  predicate InForce(src: Sources, name: string) {
    Last(src.cli, name).None? && Matching(src.env, name) == [] && Last(src.dotenv, name).Some?
  }

  /** A workflow that uses `vars.FOO` and also the whole map: unlike the purely literal use, a
      name GitHub does not have is reported missing instead of resolving to the empty string. */
  lemma MixedUseStaysMissing(order: seq<string>)
    requires var src := Sources(Extraction([("FOO", [1])], true, [2]), [], [], []);
             IsOrder(With(src, []), order)
    ensures var src := Sources(Extraction([("FOO", [1])], true, [2]), [], [], []);
            && DynamicLookup(src, false) == Some(2) && Invalid(src.extraction.vars) == []
            && Conclude(With(src, []), true, order).Err?
            && Conclude(With(src, []), true, order).error.findings.missing == [MissingVar("FOO", 1)]
  {
    var src := Sources(Extraction([("FOO", [1])], true, [2]), [], [], []);
    var src' := With(src, []);
    FooLiteral();
    assert order == ["FOO"] by {
      assert IsCandidate(src', "FOO");
      OnlyOne(order, "FOO");
    }
    CollectNothing(src');
    CollectStep(src', [], "FOO");
    assert [] + ["FOO"] == order;
    assert Lookup(src', "FOO") == Missing;
  }

  lemma OnlyOne(names: seq<string>, x: string)
    requires Distinct(names) && forall n :: n in names <==> n == x
    ensures names == [x]
  {
    assert x in names;
    var i :| 0 <= i < |names| && names[i] == x;
    if |names| > 1 {
      MemberAt(names, if i == 0 then 1 else 0);
    }
  }

  lemma MemberAt(names: seq<string>, i: nat)
    requires i < |names|
    ensures names[i] in names
  {
  }

  lemma FooLiteral()
    ensures var vars: seq<(string, seq<Span>)> := [("FOO", [1])];
            Invalid(vars) == [] && forall n :: Literal(vars, n) == if n == "FOO" then Some(("FOO", Some(1))) else None
  {
    var vars: seq<(string, seq<Span>)> := [("FOO", [1])];
    assert vars[..0] == [];
    assert Canonical("FOO") == "FOO" by {
      assert "FOO"[1..] == "OO" && "OO"[1..] == "O" && "O"[1..] == "";
      assert Canonical("O") == "O";
      assert Canonical("OO") == "OO";
    }
  }

  // ----- the whole resolution

  /** Literal uses only: the exact outcome. */
  ghost predicate NamedOutcome(src: Sources, remote: Remote, outcome: VarsOutcome) {
    && (outcome.RemoteError? <==> exists n :: IsMissing(src, n) && RemoteValue(remote, MissingOf(src, n).name).Err?)
    && (outcome.Resolved? <==> forall n :: IsMissing(src, n) ==> RemoteFits(remote, MissingOf(src, n).name))
    && (outcome.Resolved? ==>
          forall n, v :: (n, v) in outcome.entries <==> IsCandidate(src, n) && Chain(src, remote, n) == Value(v))
    && !outcome.AuthRequired?
    && (outcome.LocalError? ==> outcome.error.findings.missing == [])
  }

  /** A use of the whole map: the exact outcome. */
  ghost predicate CompleteOutcome(src: Sources, remote: Remote, outcome: VarsOutcome) {
    if remote.orgVariables.Err? || remote.repoVariables.Err? then outcome.RemoteError?
    else
      exists fetched ::
        && Enumerates(fetched, remote.orgVariables.value + remote.repoVariables.value)
        && CompletedWith(src, fetched, outcome)
  }

  ghost predicate CompletedWith(src: Sources, fetched: Entries, outcome: VarsOutcome) {
    && (outcome.Resolved? || outcome.LocalError?)
    && (outcome.Resolved? <==> Covered(src, fetched))
    && (outcome.Resolved? ==>
          forall n, v :: (n, v) in outcome.entries <==>
            (IsCandidate(src, n) || Last(fetched, n).Some?) && Overlaid(src, fetched, n) == Value(v))
  }

  /** What the local result `first` leads to. */
  ghost predicate Follows(src: Sources, first: Result<Entries, VarError>, authenticated: bool, remote: Remote,
                          outcome: VarsOutcome) {
    match first
    case Ok(entries) => outcome == Resolved(entries)
    case Err(e) =>
      if IsHard(e) then outcome == LocalError(e)
      else if !authenticated then outcome == AuthRequired(e)
      else if e.dynamicLookup.Some? then CompleteOutcome(src, remote, outcome)
      else NamedOutcome(src, remote, outcome)
  }

  method ResolveVarsWithRemote(src: Sources, complete: bool, authenticated: bool, remote: Remote)
    returns (outcome: VarsOutcome)
    ensures exists order ::
              IsOrder(src, order) && Follows(src, Conclude(src, complete, order), authenticated, remote, outcome)
  {
    hide Conclude, Collect, IsOrder, Answers, Enumerates, NamedOutcome, CompleteOutcome;
    var first := ResolveVars(src, complete);
    ghost var order :| IsOrder(src, order) && first == Conclude(src, complete, order);
    if first.Ok? {
      return Resolved(first.value);
    }
    var e := first.error;
    FailureShape(src, complete, order);
    if IsHard(e) || (e.findings.missing == [] && e.dynamicLookup.None?) {
      return LocalError(e);
    }
    if !authenticated {
      return AuthRequired(e);
    }
    var fetched;
    if e.dynamicLookup.Some? {
      fetched := FetchCompleteMap(remote);
    } else {
      fetched := FetchNamed(remote, e.findings.missing);
    }
    if fetched.Err? {
      if e.dynamicLookup.None? {
        NamedFailed(src, complete, order, remote, fetched.error);
      } else {
        CompleteFailed(src, remote, fetched.error);
      }
      return RemoteError(fetched.error);
    }
    var second := ResolveVars(src.(dotenv := src.dotenv + fetched.value), true);
    ghost var src' := With(src, fetched.value);
    ghost var order' :| IsOrder(src', order') && second == Conclude(src', true, order');
    outcome := if second.Ok? then Resolved(second.value) else LocalError(second.error);
    if e.dynamicLookup.Some? {
      CompleteDone(src, order', remote, fetched.value, outcome);
    } else {
      NamedDone(src, complete, order, order', remote, fetched.value, outcome);
    }
  }

  lemma FailureShape(src: Sources, complete: bool, order: seq<string>)
    ensures Conclude(src, complete, order).Err? ==>
              var e := Conclude(src, complete, order).error;
              && e == VarError(Invalid(src.extraction.vars), Collect(src, order), DynamicLookup(src, complete))
              && (IsHard(e) || e.findings.missing != [] || e.dynamicLookup.Some?)
  {
  }

  lemma CompleteFailed(src: Sources, remote: Remote, message: string)
    requires remote.orgVariables.Err? || remote.repoVariables.Err?
    ensures CompleteOutcome(src, remote, RemoteError(message))
  {
  }

  lemma NamedFailed(src: Sources, complete: bool, order: seq<string>, remote: Remote, message: string)
    requires IsOrder(src, order) && exists m :: m in Collect(src, order).missing && RemoteValue(remote, m.name).Err?
    ensures NamedOutcome(src, remote, RemoteError(message))
  {
    hide Collect, IsMissing, IsOrder, RemoteValue, Chain;
    var m :| m in Collect(src, order).missing && RemoteValue(remote, m.name).Err?;
    CollectMissing(src, order, m);
  }

  lemma SoundWhenNotHard(src: Sources, complete: bool, order: seq<string>)
    requires Conclude(src, complete, order).Err? && !IsHard(Conclude(src, complete, order).error)
    ensures Invalid(src.extraction.vars) == [] && forall n :: n in order ==> IsSound(src, n)
  {
    hide Collect, IsSound;
    CollectSound(src, order);
  }

  lemma NamedDone(src: Sources, complete: bool, order: seq<string>, order': seq<string>, remote: Remote,
                  fetched: Entries, outcome: VarsOutcome)
    requires IsOrder(src, order) && Conclude(src, complete, order).Err? && !IsHard(Conclude(src, complete, order).error)
    requires Answers(remote, Collect(src, order).missing, fetched) && IsOrder(With(src, fetched), order')
    requires var second := Conclude(With(src, fetched), true, order');
             outcome == if second.Ok? then Resolved(second.value) else LocalError(second.error)
    ensures NamedOutcome(src, remote, outcome)
  {
    hide Collect, IsMissing, IsOrder, RemoteValue, Chain, Conclude, Answers, IsSound, IsCandidate, MissingOf;
    SoundWhenNotHard(src, complete, order);
    NamedFetchResolves(src, order, order', remote, fetched);
    forall n | IsMissing(src, n)
      ensures RemoteValue(remote, MissingOf(src, n).name).Ok?
    {
      FetchedNames(src, order, remote, fetched, n);
    }
    if outcome.Resolved? {
      forall n, v
        ensures (n, v) in outcome.entries <==> IsCandidate(src, n) && Chain(src, remote, n) == Value(v)
      {
        NamedFetchValues(src, order, order', remote, fetched, n, v);
      }
    }
  }

  lemma CompleteDone(src: Sources, order: seq<string>, remote: Remote, fetched: Entries, outcome: VarsOutcome)
    requires remote.orgVariables.Ok? && remote.repoVariables.Ok?
    requires Enumerates(fetched, remote.orgVariables.value + remote.repoVariables.value)
    requires IsOrder(With(src, fetched), order)
    requires var second := Conclude(With(src, fetched), true, order);
             outcome == if second.Ok? then Resolved(second.value) else LocalError(second.error)
    ensures CompleteOutcome(src, remote, outcome)
  {
    hide Collect, Overlaid, IsCandidate, IsOrder, Conclude, Enumerates, Covered, Last;
    CompleteFetchResolves(src, fetched, order);
    if outcome.Resolved? {
      forall n, v
        ensures (n, v) in outcome.entries <==>
                  (IsCandidate(src, n) || Last(fetched, n).Some?) && Overlaid(src, fetched, n) == Value(v)
      {
        CompleteFetchValues(src, fetched, order, n, v);
      }
    }
    assert CompletedWith(src, fetched, outcome);
  }
}
