/** `find_cycles` and `build_graph`: from a workflow's jobs to a validated schedule. */
module NeedsGraph {
  import opened Digraph
  import opened Names
  import opened CycleWitness
  import opened Common
  import Tarjan
  import Schedule

  // ----- reporting cycles

  ghost predicate OnCycle(g: Graph, v: nat) {
    exists p :: IsCycle(g, p) && p[0] == v
  }

  /** `p` is the loop reported for its component: it starts at the component's smallest id
      and, ids and edges being unique, comes before every other loop with that start. */
  ghost predicate CanonicalLoop(g: Graph, ids: seq<string>, p: seq<nat>)
    requires |ids| == |g|
  {
    && IsSimpleCycle(g, p)
    && (forall v: nat :: SameComponent(g, p[0], v) ==> v < |g| && p[0] < |g| && Leq(ids[p[0]], ids[v]))
    && (Distinct(ids) && NoRepeatedEdges(g) ==>
          forall q :: IsSimpleCycle(g, q) && q[0] == p[0] ==> NotAfter(ids, p, q))
  }

  ghost predicate Shows(g: Graph, ids: seq<string>, spans: seq<Span>, cycle: DependencyCycle, p: seq<nat>)
    requires |ids| == |spans| == |g|
  {
    && CanonicalLoop(g, ids, p)
    && (forall i :: 0 <= i < |p| ==> p[i] < |g|)
    && cycle.span == spans[p[0]]
    && cycle.members == NamesOf(ids, p)
  }

  lemma ShowsComponent(g: Graph, ids: seq<string>, spans: seq<Span>, scc: seq<nat>, cycle: DependencyCycle, p: seq<nat>)
    requires WellFormed(g) && |ids| == |spans| == |g| && IsComponent(g, scc)
    requires Displays(g, ids, spans, scc, cycle, p)
    ensures Shows(g, ids, spans, cycle, p)
  {
    hide NotAfter;
    PathInRange(g, p);
    var k :| 0 <= k < |scc| && scc[k] == p[0];
    forall v: nat | SameComponent(g, p[0], v)
      ensures v < |g| && Leq(ids[p[0]], ids[v])
    {
      assert v in scc;
    }
    forall q | IsSimpleCycle(g, q) && q[0] == p[0] && Distinct(ids) && NoRepeatedEdges(g)
      ensures NotAfter(ids, p, q)
    {
      CycleStaysInside(g, scc, q);
      assert Target(g, scc, p[0], q);
    }
  }

  function FirstMember(c: DependencyCycle): string {
    if c.members == [] then "" else c.members[0]
  }

  function Firsts<A, B>(s: seq<(A, B)>): (r: seq<A>)
    ensures |r| == |s| && forall i :: 0 <= i < |s| ==> r[i] == s[i].0
  {
    seq(|s|, i requires 0 <= i < |s| => s[i].0)
  }

  function Seconds<A, B>(s: seq<(A, B)>): (r: seq<B>)
    ensures |r| == |s| && forall i :: 0 <= i < |s| ==> r[i] == s[i].1
  {
    seq(|s|, i requires 0 <= i < |s| => s[i].1)
  }

  function OnFirst<A, B>(key: A -> string): ((A, B)) -> string {
    (p: (A, B)) => key(p.0)
  }

  lemma TailSorted<T>(s: seq<T>, key: T -> string)
    requires SortedBy(s, key) && s != []
    ensures SortedBy(s[1..], key)
  {
  }

  /** Sorting cycles together with their loops sorts the cycles. */
  lemma {:induction false} InsertPairs<A, B>(x: (A, B), s: seq<(A, B)>, key: A -> string)
    requires SortedBy(s, OnFirst(key)) && SortedBy(Firsts(s), key)
    ensures Firsts(Insert(x, s, OnFirst(key))) == Insert(x.0, Firsts(s), key)
    decreases |s|
  {
    hide Leq, SortedBy;
    if s == [] {
      assert Firsts([x]) == [x.0];
    } else if Leq(key(x.0), key(s[0].0)) {
      assert Firsts([x] + s) == [x.0] + Firsts(s);
    } else {
      assert Firsts(s)[1..] == Firsts(s[1..]);
      TailSorted(s, OnFirst(key));
      TailSorted(Firsts(s), key);
      InsertPairs(x, s[1..], key);
      assert Firsts([s[0]] + Insert(x, s[1..], OnFirst(key))) == [s[0].0] + Firsts(Insert(x, s[1..], OnFirst(key)));
    }
  }

  lemma {:induction false} SortPairs<A, B>(s: seq<(A, B)>, key: A -> string)
    ensures Firsts(Sort(s, OnFirst(key))) == Sort(Firsts(s), key)
    decreases |s|
  {
    if s != [] {
      assert Firsts(s)[1..] == Firsts(s[1..]);
      SortPairs(s[1..], key);
      InsertPairs(s[0], Sort(s[1..], OnFirst(key)), key);
    }
  }

  /** `cycles`, with the node loops behind them, is the complete report: one canonical loop for
      every component that contains a cycle, in order of first member. */
  ghost predicate Reports(g: Graph, ids: seq<string>, spans: seq<Span>, cycles: seq<DependencyCycle>,
                          loops: seq<seq<nat>>)
    requires |ids| == |spans| == |g|
  {
    && |loops| == |cycles|
    && (forall i :: 0 <= i < |cycles| ==> Shows(g, ids, spans, cycles[i], loops[i]))
    && (forall i, j :: 0 <= i < j < |cycles| ==> !SameComponent(g, loops[i][0], loops[j][0]))
    && (forall v :: OnCycle(g, v) ==> Covered(g, loops, v))
    && (forall i :: 0 <= i < |cycles| ==> cycles[i].members != [])
    && (forall i, j :: 0 <= i < j < |cycles| ==> Leq(cycles[i].members[0], cycles[j].members[0]))
  }

  ghost predicate Covered(g: Graph, loops: seq<seq<nat>>, v: nat) {
    exists i :: 0 <= i < |loops| && loops[i] != [] && SameComponent(g, v, loops[i][0])
  }

  type Finding = (DependencyCycle, seq<nat>)

  /** The same, for findings in any order: what survives sorting. */
  ghost predicate Collected(g: Graph, ids: seq<string>, spans: seq<Span>, found: seq<Finding>)
    requires |ids| == |spans| == |g|
  {
    && (forall f :: f in found ==> f.1 != [] && Shows(g, ids, spans, f.0, f.1))
    && Distinct(found)
    && (forall e, f :: e in found && f in found && SameComponent(g, e.1[0], f.1[0]) ==> e == f)
    && (forall v :: OnCycle(g, v) ==> exists f :: f in found && SameComponent(g, v, f.1[0]))
  }

  lemma CollectedReports(g: Graph, ids: seq<string>, spans: seq<Span>, found: seq<Finding>)
    requires |ids| == |spans| == |g| && Collected(g, ids, spans, found)
    ensures var sorted := Sort(found, OnFirst(FirstMember));
            Reports(g, ids, spans, Sort(Firsts(found), FirstMember), Seconds(sorted))
  {
    hide SameComponent, Shows, SortedBy, Collected, Distinct, Sort, Reports;
    var sorted := Sort(found, OnFirst(FirstMember));
    SortPairs(found, FirstMember);
    SortMembers(found, OnFirst(FirstMember));
    CollectedDistinct(g, ids, spans, found);
    SortDistinct(found, OnFirst(FirstMember));
    SameFindings(g, ids, spans, found, sorted);
    InOrder(g, ids, spans, sorted);
  }

  lemma CollectedDistinct(g: Graph, ids: seq<string>, spans: seq<Span>, found: seq<Finding>)
    requires |ids| == |spans| == |g| && Collected(g, ids, spans, found)
    ensures Distinct(found)
  {
  }

  lemma SameFindings(g: Graph, ids: seq<string>, spans: seq<Span>, found: seq<Finding>, sorted: seq<Finding>)
    requires |ids| == |spans| == |g| && Collected(g, ids, spans, found)
    requires Distinct(sorted) && forall f :: f in sorted <==> f in found
    ensures Collected(g, ids, spans, sorted)
  {
    hide SameComponent, Shows, OnCycle, Distinct;
    forall v | OnCycle(g, v)
      ensures exists f :: f in sorted && SameComponent(g, v, f.1[0])
    {
      var f :| f in found && SameComponent(g, v, f.1[0]);
      assert f in sorted;
    }
  }

  lemma InOrder(g: Graph, ids: seq<string>, spans: seq<Span>, sorted: seq<Finding>)
    requires |ids| == |spans| == |g| && Collected(g, ids, spans, sorted)
    requires SortedBy(Firsts(sorted), FirstMember)
    ensures Reports(g, ids, spans, Firsts(sorted), Seconds(sorted))
  {
    hide SameComponent, Shows, SortedBy, OnCycle, Leq;
    var cycles, loops := Firsts(sorted), Seconds(sorted);
    forall i | 0 <= i < |sorted|
      ensures Shows(g, ids, spans, cycles[i], loops[i]) && loops[i] != [] && cycles[i].members != []
    {
      assert sorted[i] in sorted;
      ShownMembers(g, ids, spans, cycles[i], loops[i]);
    }
    SortedMembers(cycles);
    forall i, j | 0 <= i < j < |sorted|
      ensures !SameComponent(g, loops[i][0], loops[j][0])
    {
      assert sorted[i] in sorted && sorted[j] in sorted;
    }
    forall v | OnCycle(g, v)
      ensures Covered(g, loops, v)
    {
      var f :| f in sorted && SameComponent(g, v, f.1[0]);
      var i :| 0 <= i < |sorted| && sorted[i] == f;
      assert loops[i] == f.1;
    }
  }

  lemma ShownMembers(g: Graph, ids: seq<string>, spans: seq<Span>, cycle: DependencyCycle, p: seq<nat>)
    requires |ids| == |spans| == |g| && Shows(g, ids, spans, cycle, p)
    ensures cycle.members != []
  {
  }

  lemma SortedMembers(cycles: seq<DependencyCycle>)
    requires SortedBy(cycles, FirstMember) && forall i :: 0 <= i < |cycles| ==> cycles[i].members != []
    ensures forall i, j :: 0 <= i < j < |cycles| ==> Leq(cycles[i].members[0], cycles[j].members[0])
  {
    hide Leq;
    forall i, j | 0 <= i < j < |cycles|
      ensures Leq(cycles[i].members[0], cycles[j].members[0])
    {
      assert Leq(FirstMember(cycles[i]), FirstMember(cycles[j]));
    }
  }

  /** Findings for the components before `k`: `from[i]` is the component of finding `i`. */
  ghost predicate Scanning(g: Graph, ids: seq<string>, spans: seq<Span>, sccs: seq<seq<nat>>, k: nat,
                           found: seq<Finding>, from: seq<nat>)
    requires |ids| == |spans| == |g|
  {
    && |from| == |found|
    && k <= |sccs|
    && (forall i :: 0 <= i < |found| ==> Shows(g, ids, spans, found[i].0, found[i].1))
    && (forall i :: 0 <= i < |found| ==> from[i] < k && found[i].1 != [] && found[i].1[0] in sccs[from[i]])
    && (forall i, j :: 0 <= i < j < |from| ==> from[i] < from[j])
    && (forall m :: 0 <= m < k && CyclicComponent(g, sccs[m]) ==> m in from)
  }

  lemma ScanStep(g: Graph, ids: seq<string>, spans: seq<Span>, sccs: seq<seq<nat>>, k: nat,
                 found: seq<Finding>, from: seq<nat>, cycle: DependencyCycle, loop: seq<nat>)
    requires |ids| == |spans| == |g| && k < |sccs| && Scanning(g, ids, spans, sccs, k, found, from)
    requires Shows(g, ids, spans, cycle, loop) && loop != [] && loop[0] in sccs[k]
    ensures Scanning(g, ids, spans, sccs, k + 1, found + [(cycle, loop)], from + [k])
  {
    hide Shows, CyclicComponent;
    forall m | 0 <= m < k + 1 && CyclicComponent(g, sccs[m])
      ensures m in from + [k]
    {
      assert m == k || m in from;
    }
  }

  lemma SameSomewhere(g: Graph, sccs: seq<seq<nat>>, a: nat, b: nat, u: nat, v: nat)
    requires Tarjan.Partition(g, sccs) && a < |sccs| && b < |sccs| && u in sccs[a] && v in sccs[b]
    ensures SameComponent(g, u, v) <==> a == b
  {
    hide SameComponent, Distinct;
    var i :| 0 <= i < |sccs[a]| && sccs[a][i] == u;
    assert IsComponent(g, sccs[a]);
    assert v in sccs[a] <==> SameComponent(g, u, v);
  }

  lemma CycleMakesCyclic(g: Graph, scc: seq<nat>, v: nat)
    requires WellFormed(g) && IsComponent(g, scc) && Distinct(scc) && v in scc && OnCycle(g, v)
    ensures CyclicComponent(g, scc)
  {
    var p :| IsCycle(g, p) && p[0] == v;
    var w := p[1];
    assert Edge(g, p[0], p[0 + 1]);
    SubPath(g, p, 0, 1);
    SubPath(g, p, 1, |p| - 1);
    assert SameComponent(g, v, w);
    var k :| 0 <= k < |scc| && scc[k] == v;
    assert w in scc;
  }

  lemma ScannedAll(g: Graph, ids: seq<string>, spans: seq<Span>, sccs: seq<seq<nat>>, found: seq<Finding>,
                   from: seq<nat>)
    requires WellFormed(g) && |ids| == |spans| == |g| && Tarjan.Partition(g, sccs)
    requires Scanning(g, ids, spans, sccs, |sccs|, found, from)
    ensures Collected(g, ids, spans, found)
  {
    hide SameComponent, Shows, CyclicComponent, IsComponent, OnCycle, Tarjan.Partition, WellFormed;
    forall i, j | 0 <= i < |found| && 0 <= j < |found|
      ensures SameComponent(g, found[i].1[0], found[j].1[0]) ==> i == j
    {
      SameSomewhere(g, sccs, from[i], from[j], found[i].1[0], found[j].1[0]);
    }
    forall i, j | 0 <= i < j < |found|
      ensures found[i] != found[j]
    {
      SameSomewhere(g, sccs, from[i], from[j], found[i].1[0], found[j].1[0]);
      SameSomewhere(g, sccs, from[i], from[i], found[i].1[0], found[i].1[0]);
    }
    forall v | OnCycle(g, v)
      ensures exists f :: f in found && SameComponent(g, v, f.1[0])
    {
      var m := ComponentOf(g, sccs, v);
      CycleMakesCyclic(g, sccs[m], v);
      var i :| 0 <= i < |from| && from[i] == m;
      SameSomewhere(g, sccs, m, m, v, found[i].1[0]);
      assert found[i] in found;
    }
  }

  lemma ComponentOf(g: Graph, sccs: seq<seq<nat>>, v: nat) returns (m: nat)
    requires Tarjan.Partition(g, sccs) && OnCycle(g, v)
    ensures m < |sccs| && v in sccs[m] && IsComponent(g, sccs[m]) && Distinct(sccs[m])
  {
    hide IsComponent;
    assert v < |g|;
    assert Tarjan.InSome(sccs, v);
    m :| 0 <= m < |sccs| && v in sccs[m];
  }

  /** A component is reported when it has two members or a self-edge. */
  function IsCycleComponent(g: Graph, scc: seq<nat>): (b: bool)
    requires forall i :: 0 <= i < |scc| ==> scc[i] < |g|
    ensures IsComponent(g, scc) && Distinct(scc) ==> (b <==> CyclicComponent(g, scc))
  {
    |scc| >= 2 || (|scc| == 1 && scc[0] in g[scc[0]])
  }

  method FindCycles(ids: seq<string>, spans: seq<Span>, g: Graph)
    returns (cycles: seq<DependencyCycle>, ghost loops: seq<seq<nat>>)
    requires WellFormed(g) && |ids| == |spans| == |g|
    ensures Reports(g, ids, spans, cycles, loops)
    ensures cycles == [] <==> Acyclic(g)
  {
    hide Reports, Shows, CyclicComponent, IsComponent, Tarjan.Partition, WellFormed, Displays, Acyclic, Collected;
    var sccs := Tarjan.FindComponents(g);
    cycles := [];
    ghost var found: seq<Finding>, from: seq<nat> := [], [];
    for k := 0 to |sccs|
      invariant Scanning(g, ids, spans, sccs, k, found, from)
      invariant cycles == Firsts(found)
    {
      PartitionAt(g, sccs, k);
      if !IsCycleComponent(g, sccs[k]) {
        continue;
      }
      ghost var loop;
      var display;
      display, loop := BuildCycleDisplay(g, ids, spans, sccs[k]);
      if display.Some? {
        DisplayStart(g, ids, spans, sccs[k], display.value, loop);
        ScanStep(g, ids, spans, sccs, k, found, from, display.value, loop);
        cycles := cycles + [display.value];
        found, from := found + [(display.value, loop)], from + [k];
      }
    }
    ScannedAll(g, ids, spans, sccs, found, from);
    CollectedReports(g, ids, spans, found);
    cycles := Sort(cycles, FirstMember);
    loops := Seconds(Sort(found, OnFirst(FirstMember)));
    EmptyReport(g, ids, spans, cycles, loops);
  }

  lemma PartitionAt(g: Graph, sccs: seq<seq<nat>>, k: nat)
    requires Tarjan.Partition(g, sccs) && k < |sccs|
    ensures IsComponent(g, sccs[k]) && Distinct(sccs[k]) && forall i :: 0 <= i < |sccs[k]| ==> sccs[k][i] < |g|
  {
    assert IsComponent(g, sccs[k]);
  }

  lemma DisplayStart(g: Graph, ids: seq<string>, spans: seq<Span>, scc: seq<nat>, cycle: DependencyCycle,
                     loop: seq<nat>)
    requires WellFormed(g) && |ids| == |spans| == |g| && IsComponent(g, scc)
    requires Displays(g, ids, spans, scc, cycle, loop)
    ensures Shows(g, ids, spans, cycle, loop) && loop != [] && loop[0] in scc
  {
    ShowsComponent(g, ids, spans, scc, cycle, loop);
  }

  lemma AcyclicWhenNobodyOnCycle(g: Graph)
    requires forall v: nat :: !OnCycle(g, v)
    ensures Acyclic(g)
  {
    forall p
      ensures !IsCycle(g, p)
    {
      assert IsCycle(g, p) ==> OnCycle(g, p[0]);
    }
  }

  /** No report means no cycle, and conversely: no cycle is dropped, none is invented. */
  lemma EmptyReport(g: Graph, ids: seq<string>, spans: seq<Span>, cycles: seq<DependencyCycle>, loops: seq<seq<nat>>)
    requires WellFormed(g) && |ids| == |spans| == |g| && Reports(g, ids, spans, cycles, loops)
    ensures cycles == [] <==> Acyclic(g)
  {
    if cycles == [] {
      assert forall v :: !Covered(g, loops, v);
      AcyclicWhenNobodyOnCycle(g);
    } else {
      assert Shows(g, ids, spans, cycles[0], loops[0]);
      SimpleCycleIsCycle(g, loops[0]);
    }
  }

  lemma SimpleCycleIsCycle(g: Graph, p: seq<nat>)
    requires WellFormed(g) && IsSimpleCycle(g, p)
    ensures IsCycle(g, p + [p[0]])
  {
    PathInRange(g, p);
    PathAppend(g, p, [p[|p| - 1], p[0]]);
    assert [p[|p| - 1], p[0]][1..] == [p[0]];
  }

  // ----- building the graph

  /** One entry of a job's `needs:` list. */
  datatype Need = Need(value: string, span: Span)

  datatype Job = Job(id: string, span: Span, needs: seq<Need>)

  datatype GraphError =
    | UnknownNeed(span: Span, job: string, needs: string)
    | Cycles(cycles: seq<DependencyCycle>)

  datatype JobGraph = JobGraph(ids: seq<string>, byId: map<string, nat>, topoOrder: seq<nat>, wave: seq<nat>)

  function Ids(jobs: seq<Job>): (r: seq<string>)
    ensures |r| == |jobs| && forall i :: 0 <= i < |jobs| ==> r[i] == jobs[i].id
  {
    seq(|jobs|, i requires 0 <= i < |jobs| => jobs[i].id)
  }

  function Spans(jobs: seq<Job>): (r: seq<Span>)
    ensures |r| == |jobs| && forall i :: 0 <= i < |jobs| ==> r[i] == jobs[i].span
  {
    seq(|jobs|, i requires 0 <= i < |jobs| => jobs[i].span)
  }

  /** Collecting `(id, index)` pairs into a map: a later job of the same id wins. */
  function IndexById(ids: seq<string>): (byId: map<string, nat>)
    ensures forall id :: id in byId <==> id in ids
    ensures forall id :: id in byId ==> byId[id] < |ids| && ids[byId[id]] == id
  {
    if ids == [] then map[]
    else
      var last := |ids| - 1;
      assert ids == ids[..last] + [ids[last]];
      IndexById(ids[..last])[ids[last] := last]
  }

  /** The distinct dependencies named by `needs`, in order of first mention. */
  function DepsOf(byId: map<string, nat>, needs: seq<Need>): (deps: seq<nat>)
    ensures Distinct(deps)
    ensures forall d :: d in deps <==>
              exists k :: 0 <= k < |needs| && needs[k].value in byId && byId[needs[k].value] == d
  {
    if needs == [] then []
    else
      var last := |needs| - 1;
      var before := DepsOf(byId, needs[..last]);
      if needs[last].value !in byId || byId[needs[last].value] in before then before
      else before + [byId[needs[last].value]]
  }

  function Needs(jobs: seq<Job>): (g: Graph)
    ensures |g| == |jobs|
  {
    var byId := IndexById(Ids(jobs));
    seq(|jobs|, i requires 0 <= i < |jobs| => DepsOf(byId, jobs[i].needs))
  }

  lemma NeedsWellFormed(jobs: seq<Job>)
    ensures WellFormed(Needs(jobs)) && NoRepeatedEdges(Needs(jobs))
  {
    var g := Needs(jobs);
    var byId := IndexById(Ids(jobs));
    forall u, k | 0 <= u < |g| && 0 <= k < |g[u]|
      ensures g[u][k] < |g|
    {
      assert g[u][k] in DepsOf(byId, jobs[u].needs);
    }
  }

  /** With unique ids, the edges are exactly the `needs:` entries. */
  lemma NeedsEdges(jobs: seq<Job>, u: nat, v: nat)
    requires Distinct(Ids(jobs)) && u < |jobs| && v < |jobs|
    ensures Edge(Needs(jobs), u, v) <==> exists k :: 0 <= k < |jobs[u].needs| && jobs[u].needs[k].value == jobs[v].id
  {
    var ids := Ids(jobs);
    var byId := IndexById(ids);
    assert forall id :: id in byId ==> ids[byId[id]] == id;
    assert ids[v] in ids;
    assert byId[ids[v]] == v;
  }

  ghost predicate Known(jobs: seq<Job>, j: nat, k: nat)
    requires j < |jobs| && k < |jobs[j].needs|
  {
    jobs[j].needs[k].value in Ids(jobs)
  }

  ghost predicate AllKnown(jobs: seq<Job>) {
    forall j, k :: 0 <= j < |jobs| && 0 <= k < |jobs[j].needs| ==> Known(jobs, j, k)
  }

  /** Entry `k` of job `j` is the first, in file order, to name an undefined job. */
  ghost predicate FirstUnknown(jobs: seq<Job>, j: nat, k: nat) {
    && j < |jobs| && k < |jobs[j].needs| && !Known(jobs, j, k)
    && (forall i, l :: 0 <= i < j && 0 <= l < |jobs[i].needs| ==> Known(jobs, i, l))
    && (forall l :: 0 <= l < k ==> Known(jobs, j, l))
  }

  ghost predicate IsSchedule(g: Graph, order: seq<nat>, wave: seq<nat>) {
    && Schedule.Greedy(g, Below(|g|), order)
    && Schedule.IsLeastTopological(g, Below(|g|), order)
    && |wave| == |g|
    && forall v :: 0 <= v < |g| ==> Schedule.LongestChain(g, v, wave[v])
  }

  /** The outcome the planner owes for `jobs`: an error naming the first undefined need, or
      the complete cycle report, or the least schedule with its waves. */
  ghost predicate Planned(jobs: seq<Job>, result: Result<JobGraph, GraphError>) {
    match result
    case Err(UnknownNeed(span, job, needs)) =>
      exists j: nat, k: nat :: FirstUnknown(jobs, j, k)
        && span == jobs[j].needs[k].span && job == jobs[j].id && needs == jobs[j].needs[k].value
    case Err(Cycles(cycles)) =>
      && AllKnown(jobs)
      && !Acyclic(Needs(jobs))
      && exists loops :: Reports(Needs(jobs), Ids(jobs), Spans(jobs), cycles, loops)
    case Ok(graph) =>
      && AllKnown(jobs)
      && Acyclic(Needs(jobs))
      && graph.ids == Ids(jobs)
      && graph.byId == IndexById(Ids(jobs))
      && IsSchedule(Needs(jobs), graph.topoOrder, graph.wave)
  }

  method BuildGraph(jobs: seq<Job>) returns (result: Result<JobGraph, GraphError>)
    ensures Planned(jobs, result)
  {
    hide Reports, Acyclic, Schedule.IsLeastTopological, Schedule.LongestChain, WellFormed, NoRepeatedEdges,
      Schedule.Transposed, Schedule.Greedy, DepsOf, IndexById;
    var ids, spans := Ids(jobs), Spans(jobs);
    var byId := IndexById(ids);
    var deps: Graph := [];
    for j := 0 to |jobs|
      invariant |deps| == j && forall i :: 0 <= i < j ==> deps[i] == DepsOf(byId, jobs[i].needs)
      invariant forall i, l :: 0 <= i < j && 0 <= l < |jobs[i].needs| ==> Known(jobs, i, l)
    {
      var unknown, thisDeps := JobDeps(byId, jobs[j].needs);
      if unknown.Some? {
        var need := jobs[j].needs[unknown.value];
        assert FirstUnknown(jobs, j, unknown.value);
        return Err(UnknownNeed(need.span, jobs[j].id, need.value));
      }
      deps := deps + [thisDeps];
    }
    assert deps == Needs(jobs);
    NeedsWellFormed(jobs);
    var dependents := Schedule.BuildDependents(deps);
    var cycles;
    ghost var loops;
    cycles, loops := FindCycles(ids, spans, deps);
    if cycles != [] {
      return Err(Cycles(cycles));
    }
    var topoOrder := Schedule.KahnTopoOrder(deps, dependents);
    LeastIsTopological(deps, topoOrder);
    var wave := Schedule.ComputeWaves(deps, topoOrder);
    return Ok(JobGraph(ids, byId, topoOrder, wave));
  }

  lemma LeastIsTopological(g: Graph, order: seq<nat>)
    requires Schedule.IsLeastTopological(g, Below(|g|), order)
    ensures Schedule.IsTopological(g, Below(|g|), order)
  {
  }

  /** Resolves one `needs:` list, stopping at the first undefined entry. */
  method JobDeps(byId: map<string, nat>, needs: seq<Need>) returns (unknown: Option<nat>, deps: seq<nat>)
    ensures match unknown
            case Some(k) => k < |needs| && needs[k].value !in byId && forall l :: 0 <= l < k ==> needs[l].value in byId
            case None => deps == DepsOf(byId, needs) && forall l :: 0 <= l < |needs| ==> needs[l].value in byId
  {
    deps := [];
    var seen: set<nat> := {};
    for k := 0 to |needs|
      invariant deps == DepsOf(byId, needs[..k])
      invariant seen == Elements(deps)
      invariant forall l :: 0 <= l < k ==> needs[l].value in byId
    {
      if needs[k].value !in byId {
        return Some(k), [];
      }
      var idx := byId[needs[k].value];
      assert needs[..k + 1][..k] == needs[..k];
      if idx !in seen {
        seen := seen + {idx};
        deps := deps + [idx];
      }
    }
    assert needs[..|needs|] == needs;
    return None, deps;
  }

  /** A graph has at most one schedule. */
  lemma ScheduleUnique(g: Graph, a: seq<nat>, b: seq<nat>, v: seq<nat>, w: seq<nat>)
    requires IsSchedule(g, a, v) && IsSchedule(g, b, w)
    ensures a == b && v == w
  {
    hide Schedule.IsLeastTopological, Schedule.LongestChain, Schedule.Greedy;
    Schedule.LeastUnique(g, Below(|g|), a, b);
    forall i: nat | i < |g|
      ensures v[i] == w[i]
    {
      Schedule.LongestChainUnique(g, i, v[i], w[i]);
    }
  }
}
