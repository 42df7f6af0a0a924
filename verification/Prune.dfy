/** `prune_to_job`: cutting an execution plan down to one job and everything it needs.

    The result is compared with planning the cut-down workflow from scratch. */
module Prune {
  import opened Digraph
  import opened CycleWitness
  import opened NeedsGraph
  import opened Common
  import Schedule

  /** The parts of a planned job that scheduling depends on. */
  datatype JobPlan = JobPlan(id: string, needs: seq<string>, wave: nat)

  /** `jobs` in declaration order, `topoOrder` in starting order. */
  datatype Plan = Plan(jobs: seq<JobPlan>, topoOrder: seq<string>)

  datatype PruneError = NoSuchJob(job: string)

  // ----- filtering in place

  function Retain<T(!new)>(s: seq<T>, keep: T -> bool): (r: seq<T>)
    ensures forall x :: x in r <==> x in s && keep(x)
  {
    if s == [] then []
    else
      var last := |s| - 1;
      assert s == s[..last] + [s[last]];
      Retain(s[..last], keep) + if keep(s[last]) then [s[last]] else []
  }

  /** The positions `Retain` keeps. */
  function Chosen<T>(s: seq<T>, keep: T -> bool): (sel: seq<nat>)
    ensures forall i: nat :: i in sel <==> i < |s| && keep(s[i])
    ensures forall a, b :: 0 <= a < b < |sel| ==> sel[a] < sel[b]
  {
    if s == [] then []
    else
      var last := |s| - 1;
      assert forall i :: 0 <= i < last ==> s[..last][i] == s[i];
      var before := Chosen(s[..last], keep);
      assert forall a :: 0 <= a < |before| ==> before[a] in before;
      before + if keep(s[last]) then [last] else []
  }

  function Pick<T>(s: seq<T>, sel: seq<nat>): (r: seq<T>)
    requires forall a :: 0 <= a < |sel| ==> sel[a] < |s|
    ensures |r| == |sel| && forall a :: 0 <= a < |sel| ==> r[a] == s[sel[a]]
  {
    seq(|sel|, a requires 0 <= a < |sel| => s[sel[a]])
  }

  lemma {:induction false} RetainPicks<T(!new)>(s: seq<T>, keep: T -> bool)
    ensures forall a :: 0 <= a < |Chosen(s, keep)| ==> Chosen(s, keep)[a] < |s|
    ensures Retain(s, keep) == Pick(s, Chosen(s, keep))
    decreases |s|
  {
    assert forall a :: 0 <= a < |Chosen(s, keep)| ==> Chosen(s, keep)[a] in Chosen(s, keep);
    if s != [] {
      var last := |s| - 1;
      RetainPicks(s[..last], keep);
    }
  }

  lemma {:induction false} ChosenAlike<A, B>(s: seq<A>, t: seq<B>, keep: A -> bool, keep': B -> bool)
    requires |s| == |t| && forall i :: 0 <= i < |s| ==> keep(s[i]) == keep'(t[i])
    ensures Chosen(s, keep) == Chosen(t, keep')
    decreases |s|
  {
    if s != [] {
      ChosenAlike(s[..|s| - 1], t[..|s| - 1], keep, keep');
    }
  }

  // ----- the closure

  function FindJob(jobs: seq<JobPlan>, id: string): Option<JobPlan> {
    if jobs == [] then None
    else if jobs[0].id == id then Some(jobs[0])
    else FindJob(jobs[1..], id)
  }

  /** Whatever a kept job needs is kept. */
  ghost predicate NeedsClosed(jobs: seq<JobPlan>, keep: set<string>) {
    forall id :: id in keep && FindJob(jobs, id).Some? ==> forall n :: n in FindJob(jobs, id).value.needs ==> n in keep
  }

  ghost predicate IsClosure(jobs: seq<JobPlan>, target: string, keep: set<string>) {
    && target in keep
    && NeedsClosed(jobs, keep)
    && forall c :: target in c && NeedsClosed(jobs, c) ==> keep <= c
  }

  function AllNeeds(jobs: seq<JobPlan>): set<string> {
    if jobs == [] then {} else Elements(jobs[0].needs) + AllNeeds(jobs[1..])
  }

  lemma {:induction false} FindNeeds(jobs: seq<JobPlan>, id: string)
    requires FindJob(jobs, id).Some?
    ensures Elements(FindJob(jobs, id).value.needs) <= AllNeeds(jobs)
  {
    if jobs[0].id != id {
      FindNeeds(jobs[1..], id);
    }
  }

  /** The queue loop reaches `keep` and still has to reach `queue`. */
  ghost predicate Reaching(jobs: seq<JobPlan>, target: string, keep: set<string>, queue: seq<string>) {
    && (target in keep || target in queue)
    && (forall id :: id in keep && FindJob(jobs, id).Some? ==>
          forall n :: n in FindJob(jobs, id).value.needs ==> n in keep || n in queue)
    && (forall c :: target in c && NeedsClosed(jobs, c) ==> keep <= c && Elements(queue) <= c)
  }

  lemma ReachNext(jobs: seq<JobPlan>, target: string, keep: set<string>, queue: seq<string>)
    requires Reaching(jobs, target, keep, queue) && queue != [] && queue[0] !in keep
    ensures var found := FindJob(jobs, queue[0]);
            Reaching(jobs, target, keep + {queue[0]}, queue[1..] + if found.Some? then found.value.needs else [])
  {
    var id := queue[0];
    var found := FindJob(jobs, id);
    var rest := queue[1..] + if found.Some? then found.value.needs else [];
    assert forall x :: x in queue ==> x == id || x in queue[1..];
    forall c | target in c && NeedsClosed(jobs, c)
      ensures keep + {id} <= c && Elements(rest) <= c
    {
      assert id in Elements(queue);
      assert Elements(queue[1..]) <= Elements(queue);
    }
  }

  lemma ReachSkip(jobs: seq<JobPlan>, target: string, keep: set<string>, queue: seq<string>)
    requires Reaching(jobs, target, keep, queue) && queue != [] && queue[0] in keep
    ensures Reaching(jobs, target, keep, queue[1..])
  {
    assert forall x :: x in queue ==> x == queue[0] || x in queue[1..];
    assert Elements(queue[1..]) <= Elements(queue);
  }

  method Closure(jobs: seq<JobPlan>, target: string) returns (keep: set<string>)
    ensures IsClosure(jobs, target, keep)
  {
    hide NeedsClosed, Reaching;
    ghost var names := {target} + AllNeeds(jobs);
    keep := {};
    var queue := [target];
    assert Reaching(jobs, target, keep, queue) by { StartReaching(jobs, target); }
    while queue != []
      invariant Reaching(jobs, target, keep, queue)
      invariant keep <= names && Elements(queue) <= names
      decreases |names - keep|, |queue|
    {
      var id := queue[0];
      assert id in Elements(queue);
      assert Elements(queue[1..]) <= Elements(queue);
      if id in keep {
        ReachSkip(jobs, target, keep, queue);
        queue := queue[1..];
        continue;
      }
      ReachNext(jobs, target, keep, queue);
      assert names - keep == (names - (keep + {id})) + {id};
      keep := keep + {id};
      queue := queue[1..];
      var found := FindJob(jobs, id);
      if found.Some? {
        FindNeeds(jobs, id);
        assert Elements(queue + found.value.needs) == Elements(queue) + Elements(found.value.needs);
        queue := queue + found.value.needs;
      } else {
        assert queue + [] == queue;
      }
    }
    EndReaching(jobs, target, keep);
  }

  lemma StartReaching(jobs: seq<JobPlan>, target: string)
    ensures Reaching(jobs, target, {}, [target])
  {
  }

  lemma EndReaching(jobs: seq<JobPlan>, target: string, keep: set<string>)
    requires Reaching(jobs, target, keep, [])
    ensures IsClosure(jobs, target, keep)
  {
  }

  function Restrict(plan: Plan, keep: set<string>): Plan {
    Plan(Retain(plan.jobs, (j: JobPlan) => j.id in keep), Retain(plan.topoOrder, (id: string) => id in keep))
  }

  /** Keeps exactly the jobs in the least `needs`-closed set containing `job`. */
  method PruneToJob(plan: Plan, job: string) returns (result: Result<Plan, PruneError>, keep: set<string>)
    ensures result.Err? <==> forall i :: 0 <= i < |plan.jobs| ==> plan.jobs[i].id != job
    ensures result.Ok? ==> IsClosure(plan.jobs, job, keep) && result.value == Restrict(plan, keep)
  {
    keep := {};
    var known := false;
    for i := 0 to |plan.jobs|
      invariant known <==> exists k :: 0 <= k < i && plan.jobs[k].id == job
    {
      if plan.jobs[i].id == job {
        known := true;
      }
    }
    if !known {
      return Err(NoSuchJob(job)), {};
    }
    keep := Closure(plan.jobs, job);
    return Ok(Restrict(plan, keep)), keep;
  }

  // ----- a graph embedded in another

  /** `h` is `g` cut down to the nodes `sel`, renumbered in the same relative order. */
  ghost predicate Embeds(h: Graph, g: Graph, sel: seq<nat>) {
    && |sel| == |h|
    && (forall a :: 0 <= a < |sel| ==> sel[a] < |g|)
    && (forall a, b :: 0 <= a < b < |sel| ==> sel[a] < sel[b])
    && (forall a :: 0 <= a < |h| ==> |g[sel[a]]| == |h[a]|)
    && (forall a, k :: 0 <= a < |h| && 0 <= k < |h[a]| ==> h[a][k] < |h| && g[sel[a]][k] == sel[h[a][k]])
  }

  lemma EmbeddedEdge(h: Graph, g: Graph, sel: seq<nat>, a: nat, b: nat)
    requires Embeds(h, g, sel) && a < |h| && b < |h|
    ensures b in h[a] <==> sel[b] in g[sel[a]]
  {
    if b in h[a] {
      var k :| 0 <= k < |h[a]| && h[a][k] == b;
      assert g[sel[a]][k] == sel[b];
    }
    if sel[b] in g[sel[a]] {
      var k :| 0 <= k < |g[sel[a]]| && g[sel[a]][k] == sel[b];
      assert sel[h[a][k]] == sel[b];
    }
  }

  /** Dependencies of an embedded node are embedded. */
  lemma EmbeddedTarget(h: Graph, g: Graph, sel: seq<nat>, a: nat, d: nat) returns (b: nat)
    requires Embeds(h, g, sel) && a < |h| && d in g[sel[a]]
    ensures b < |h| && sel[b] == d && b in h[a]
  {
    var k :| 0 <= k < |g[sel[a]]| && g[sel[a]][k] == d;
    b := h[a][k];
  }

  lemma LiftPath(h: Graph, g: Graph, sel: seq<nat>, p: seq<nat>)
    requires WellFormed(h) && Embeds(h, g, sel) && IsPath(h, p)
    ensures forall i :: 0 <= i < |p| ==> p[i] < |sel|
    ensures IsPath(g, Pick(sel, p))
  {
    PathInRange(h, p);
    var q := Pick(sel, p);
    forall i | 0 <= i < |q| - 1
      ensures Edge(g, q[i], q[i + 1])
    {
      assert Edge(h, p[i], p[i + 1]);
      EmbeddedEdge(h, g, sel, p[i], p[i + 1]);
    }
  }

  lemma {:induction false} LowerPath(h: Graph, g: Graph, sel: seq<nat>, a: nat, q: seq<nat>) returns (p: seq<nat>)
    requires Embeds(h, g, sel) && a < |h| && IsPath(g, q) && q[0] == sel[a]
    ensures IsPath(h, p) && p[0] == a && |p| == |q| && p[|p| - 1] < |h| && sel[p[|p| - 1]] == q[|q| - 1]
    decreases |q|
  {
    hide Embeds;
    EmbedSize(h, g, sel);
    if |q| == 1 {
      return [a];
    }
    var last := |q| - 1;
    var front := q[..last];
    forall i | 0 <= i < |front| - 1
      ensures Edge(g, front[i], front[i + 1])
    {
      assert Edge(g, q[i], q[i + 1]);
    }
    var p' := LowerPath(h, g, sel, a, front);
    assert Edge(g, q[last - 1], q[last - 1 + 1]);
    var b := EmbeddedTarget(h, g, sel, p'[|p'| - 1], q[last]);
    p := p' + [b];
    forall i | 0 <= i < |p| - 1
      ensures Edge(h, p[i], p[i + 1])
    {
      if i < |p'| - 1 {
        assert Edge(h, p'[i], p'[i + 1]);
      }
    }
  }

  lemma EmbeddedAcyclic(h: Graph, g: Graph, sel: seq<nat>)
    requires WellFormed(h) && Embeds(h, g, sel) && Acyclic(g)
    ensures Acyclic(h)
  {
    forall p
      ensures !IsCycle(h, p)
    {
      if IsPath(h, p) {
        LiftPath(h, g, sel, p);
        PathInRange(h, p);
        var q := Pick(sel, p);
        assert !IsCycle(g, q);
      }
    }
  }

  /** Chains hanging off a kept node are the same before and after. */
  lemma EmbeddedChain(h: Graph, g: Graph, sel: seq<nat>, a: nat, depth: nat)
    requires WellFormed(h) && Embeds(h, g, sel) && a < |h| && Schedule.LongestChain(g, sel[a], depth)
    ensures Schedule.LongestChain(h, a, depth)
  {
    hide IsPath;
    var q :| Schedule.StartsAt(g, q, sel[a]) && |q| == depth + 1;
    var p := LowerPath(h, g, sel, a, q);
    assert Schedule.StartsAt(h, p, a);
    forall r | Schedule.StartsAt(h, r, a)
      ensures |r| <= depth + 1
    {
      LiftPath(h, g, sel, r);
      NonemptyPath(h, r);
      assert Schedule.StartsAt(g, Pick(sel, r), sel[a]);
    }
  }

  lemma NonemptyPath(g: Graph, p: seq<nat>)
    requires IsPath(g, p)
    ensures |p| > 0
  {
  }

  // ----- the filtered order

  function Among(nodes: set<nat>): nat -> bool {
    (v: nat) => v in nodes
  }

  ghost predicate ClosedNodes(g: Graph, nodes: set<nat>) {
    forall u, d :: u in nodes && u < |g| && d in g[u] ==> d in nodes
  }

  /** Skipping nodes outside a closed set turns the greedy order of the whole graph into the
      greedy order of the set. */
  lemma {:induction false} FilterGreedy(g: Graph, nodes: set<nat>, order: seq<nat>)
    requires Schedule.Greedy(g, Below(|g|), order) && ClosedNodes(g, nodes)
    ensures Schedule.Greedy(g, nodes, Retain(order, Among(nodes)))
    decreases |order|
  {
    hide Schedule.Ready, ClosedNodes, Schedule.Greedy;
    if order == [] {
      EmptyGreedy(g, nodes);
    } else {
      var last := |order| - 1;
      var front := order[..last];
      GreedyPrefix(g, order, last);
      FilterGreedy(g, nodes, front);
      if order[last] in nodes {
        FilterStep(g, nodes, front, order[last]);
      } else {
        assert Retain(front, Among(nodes)) + [] == Retain(front, Among(nodes));
      }
    }
  }

  lemma EmptyGreedy(g: Graph, nodes: set<nat>)
    ensures Schedule.Greedy(g, nodes, [])
  {
  }

  lemma FilterStep(g: Graph, nodes: set<nat>, front: seq<nat>, next: nat)
    requires ClosedNodes(g, nodes) && next in nodes
    requires Schedule.Greedy(g, nodes, Retain(front, Among(nodes)))
    requires Schedule.Ready(g, Below(|g|), front, next)
    requires forall v: nat :: Schedule.Ready(g, Below(|g|), front, v) ==> next <= v
    ensures Schedule.Greedy(g, nodes, Retain(front, Among(nodes)) + [next])
  {
    hide Schedule.Ready, ClosedNodes, Schedule.Greedy;
    var kept := Retain(front, Among(nodes));
    forall v: nat
      ensures Schedule.Ready(g, nodes, kept, v) <==> v in nodes && Schedule.Ready(g, Below(|g|), front, v)
    {
      FilterReady(g, nodes, front, kept, v);
    }
    Schedule.GreedyExtend(g, nodes, kept, next);
  }

  lemma GreedyPrefix(g: Graph, order: seq<nat>, n: nat)
    requires Schedule.Greedy(g, Below(|g|), order) && n < |order|
    ensures Schedule.Greedy(g, Below(|g|), order[..n])
    ensures Schedule.Ready(g, Below(|g|), order[..n], order[n])
    ensures forall v: nat :: Schedule.Ready(g, Below(|g|), order[..n], v) ==> order[n] <= v
  {
    hide Schedule.Ready;
    forall k | 0 <= k < n
      ensures order[..n][..k] == order[..k]
    {
    }
  }

  lemma FilterReady(g: Graph, nodes: set<nat>, front: seq<nat>, kept: seq<nat>, v: nat)
    requires ClosedNodes(g, nodes)
    requires forall x :: x in kept <==> x in front && x in nodes
    ensures Schedule.Ready(g, nodes, kept, v) <==> v in nodes && Schedule.Ready(g, Below(|g|), front, v)
  {
  }

  /** Renumbering preserves greediness. */
  lemma PullGreedy(h: Graph, g: Graph, sel: seq<nat>, order: seq<nat>)
    requires Embeds(h, g, sel) && |sel| == |h| && (forall k :: 0 <= k < |order| ==> order[k] < |sel|)
    requires Schedule.Greedy(g, Elements(sel), Pick(sel, order))
    ensures Schedule.Greedy(h, Below(|h|), order)
  {
    hide Schedule.Ready, Embeds;
    var image := Pick(sel, order);
    forall k | 0 <= k < |order|
      ensures Schedule.Ready(h, Below(|h|), order[..k], order[k])
      ensures forall v: nat :: Schedule.Ready(h, Below(|h|), order[..k], v) ==> order[k] <= v
    {
      assert image[..k] == Pick(sel, order[..k]);
      PullReady(h, g, sel, order[..k], order[k]);
      forall v: nat | Schedule.Ready(h, Below(|h|), order[..k], v)
        ensures order[k] <= v
      {
        InBelow(h, order[..k], v);
        PullReady(h, g, sel, order[..k], v);
        EmbedOrder(h, g, sel, order[k], v);
      }
    }
  }

  lemma InBelow(h: Graph, done: seq<nat>, v: nat)
    requires Schedule.Ready(h, Below(|h|), done, v)
    ensures v < |h|
  {
  }

  lemma EmbedOrder(h: Graph, g: Graph, sel: seq<nat>, a: nat, b: nat)
    requires Embeds(h, g, sel) && a < |h| && b < |h| == |sel| && sel[a] <= sel[b]
    ensures a <= b
  {
  }

  lemma PullReady(h: Graph, g: Graph, sel: seq<nat>, done: seq<nat>, v: nat)
    requires Embeds(h, g, sel) && v < |h| && (forall k :: 0 <= k < |done| ==> done[k] < |sel|)
    ensures |h| == |sel|
    ensures Schedule.Ready(h, Below(|h|), done, v) <==> Schedule.Ready(g, Elements(sel), Pick(sel, done), sel[v])
  {
    var image := Pick(sel, done);
    forall x: nat | x < |sel|
      ensures x in done <==> sel[x] in image
    {
      PickMember(h, g, sel, done, x);
    }
    if Schedule.Ready(h, Below(|h|), done, v) {
      forall d | d in g[sel[v]]
        ensures d in image
      {
        var b := EmbeddedTarget(h, g, sel, v, d);
      }
    }
    if Schedule.Ready(g, Elements(sel), image, sel[v]) {
      forall b | b in h[v]
        ensures b in done
      {
        var k :| 0 <= k < |h[v]| && h[v][k] == b;
        assert g[sel[v]][k] == sel[b];
        assert sel[b] in g[sel[v]];
      }
    }
  }

  lemma PickMember(h: Graph, g: Graph, sel: seq<nat>, done: seq<nat>, x: nat)
    requires Embeds(h, g, sel) && x < |sel| && (forall k :: 0 <= k < |done| ==> done[k] < |sel|)
    ensures x in done <==> sel[x] in Pick(sel, done)
  {
    var image := Pick(sel, done);
    if x in done {
      var k :| 0 <= k < |done| && done[k] == x;
      assert image[k] == sel[x];
    }
    if sel[x] in image {
      var k :| 0 <= k < |image| && image[k] == sel[x];
      assert sel[done[k]] == sel[x];
    }
  }

  // ----- pruning the plan is planning the pruned workflow

  /** A job's `needs` as planned: each name once, in order of first mention. */
  function DistinctNames(needs: seq<Need>): (names: seq<string>)
    ensures forall n :: n in names <==> exists k :: 0 <= k < |needs| && needs[k].value == n
  {
    if needs == [] then []
    else
      var last := |needs| - 1;
      var before := DistinctNames(needs[..last]);
      if needs[last].value in before then before else before + [needs[last].value]
  }

  function WaveOf(graph: JobGraph, id: string): nat {
    if id in graph.byId && graph.byId[id] < |graph.wave| then graph.wave[graph.byId[id]] else 0
  }

  /** The scheduling part of `plan`: jobs in declaration order, starting order by id. */
  function PlanOf(jobs: seq<Job>, graph: JobGraph): (plan: Plan)
    requires forall k :: 0 <= k < |graph.topoOrder| ==> graph.topoOrder[k] < |graph.ids|
    ensures |plan.jobs| == |jobs|
  {
    Plan(seq(|jobs|, i requires 0 <= i < |jobs| =>
           JobPlan(jobs[i].id, DistinctNames(jobs[i].needs), WaveOf(graph, jobs[i].id))),
         NamesOf(graph.ids, graph.topoOrder))
  }

  function KeepJob(keep: set<string>): Job -> bool {
    (j: Job) => j.id in keep
  }

  function Kept(jobs: seq<Job>, keep: set<string>): seq<nat> {
    Chosen(jobs, KeepJob(keep))
  }

  lemma KeptRange(jobs: seq<Job>, keep: set<string>)
    ensures forall a :: 0 <= a < |Kept(jobs, keep)| ==> Kept(jobs, keep)[a] < |jobs|
    ensures forall a :: 0 <= a < |Kept(jobs, keep)| ==> jobs[Kept(jobs, keep)[a]].id in keep
    ensures forall i: nat :: i in Kept(jobs, keep) <==> i < |jobs| && jobs[i].id in keep
  {
    var sel := Kept(jobs, keep);
    assert forall a :: 0 <= a < |sel| ==> sel[a] in sel;
  }

  /** Indexing ids before and after renumbering agree. */
  lemma IndexEmbedded(ids: seq<string>, sel: seq<nat>, a: nat)
    requires Distinct(ids) && (forall a :: 0 <= a < |sel| ==> sel[a] < |ids|)
    requires (forall a, b :: 0 <= a < b < |sel| ==> sel[a] < sel[b]) && a < |sel|
    ensures ids[sel[a]] in IndexById(ids) && IndexById(ids)[ids[sel[a]]] == sel[a]
    ensures ids[sel[a]] in IndexById(Pick(ids, sel)) && IndexById(Pick(ids, sel))[ids[sel[a]]] == a
  {
    hide IndexById;
    var some := Pick(ids, sel);
    assert some[a] in some;
    var b := IndexById(some)[some[a]];
    assert some[b] == some[a];
    assert ids[sel[b]] == ids[sel[a]];
  }

  /** Resolving a `needs:` list whose names are all kept gives the same nodes, renumbered. */
  lemma {:induction false} DepsEmbedded(ids: seq<string>, sel: seq<nat>, needs: seq<Need>)
    requires Distinct(ids) && (forall a :: 0 <= a < |sel| ==> sel[a] < |ids|)
    requires forall a, b :: 0 <= a < b < |sel| ==> sel[a] < sel[b]
    requires forall k :: 0 <= k < |needs| ==> needs[k].value in Pick(ids, sel)
    ensures var few := DepsOf(IndexById(Pick(ids, sel)), needs);
            && (forall k :: 0 <= k < |few| ==> few[k] < |sel|)
            && DepsOf(IndexById(ids), needs) == Pick(sel, few)
    decreases |needs|
  {
    hide IndexById, Distinct;
    if needs != [] {
      var last := |needs| - 1;
      var front := needs[..last];
      DepsEmbedded(ids, sel, front);
      var few := DepsOf(IndexById(Pick(ids, sel)), front);
      var x := needs[last].value;
      var a :| 0 <= a < |sel| && Pick(ids, sel)[a] == x;
      IndexEmbedded(ids, sel, a);
      SameMember(sel, few, a);
    }
  }

  lemma SameMember(sel: seq<nat>, few: seq<nat>, a: nat)
    requires forall a, b :: 0 <= a < b < |sel| ==> sel[a] < sel[b]
    requires a < |sel| && forall k :: 0 <= k < |few| ==> few[k] < |sel|
    ensures a in few <==> sel[a] in Pick(sel, few)
  {
    if a in few {
      var k :| 0 <= k < |few| && few[k] == a;
      assert Pick(sel, few)[k] == sel[a];
    }
    if sel[a] in Pick(sel, few) {
      var k :| 0 <= k < |few| && Pick(sel, few)[k] == sel[a];
      assert sel[few[k]] == sel[a];
    }
  }

  /** `jobs` is a plannable workflow, `graph` its schedule, and `keep` the closure pruning uses. */
  ghost predicate Pruning(jobs: seq<Job>, graph: JobGraph, target: string, keep: set<string>) {
    && Distinct(Ids(jobs))
    && Planned(jobs, Ok(graph))
    && (forall k :: 0 <= k < |graph.topoOrder| ==> graph.topoOrder[k] < |graph.ids|)
    && IsClosure(PlanOf(jobs, graph).jobs, target, keep)
  }

  lemma {:induction false} FindAt(jobs: seq<JobPlan>, i: nat)
    requires i < |jobs| && forall a, b :: 0 <= a < b < |jobs| ==> jobs[a].id != jobs[b].id
    ensures FindJob(jobs, jobs[i].id) == Some(jobs[i])
    decreases |jobs|
  {
    if i > 0 {
      assert jobs[0].id != jobs[i].id;
      FindAt(jobs[1..], i - 1);
    }
  }

  /** The needs of a kept job are names of kept jobs. */
  lemma KeptNeeds(jobs: seq<Job>, graph: JobGraph, target: string, keep: set<string>, i: nat, k: nat)
    requires Pruning(jobs, graph, target, keep) && i < |jobs| && jobs[i].id in keep && k < |jobs[i].needs|
    ensures jobs[i].needs[k].value in keep && jobs[i].needs[k].value in Ids(jobs)
  {
    hide IsSchedule, IndexById, Acyclic;
    var plan := PlanOf(jobs, graph);
    forall a, b | 0 <= a < b < |plan.jobs|
      ensures plan.jobs[a].id != plan.jobs[b].id
    {
      assert Ids(jobs)[a] != Ids(jobs)[b];
    }
    FindAt(plan.jobs, i);
    assert jobs[i].needs[k].value in DistinctNames(jobs[i].needs);
    assert Known(jobs, i, k);
  }

  lemma KeptEmbeds(jobs: seq<Job>, graph: JobGraph, target: string, keep: set<string>)
    requires Pruning(jobs, graph, target, keep)
    ensures forall a :: 0 <= a < |Kept(jobs, keep)| ==> Kept(jobs, keep)[a] < |jobs|
    ensures Embeds(Needs(Pick(jobs, Kept(jobs, keep))), Needs(jobs), Kept(jobs, keep))
  {
    hide Pruning, IndexById, DepsOf, Kept;
    KeptRange(jobs, keep);
    KeptIncreasing(jobs, keep);
    var sel := Kept(jobs, keep);
    var few := Pick(jobs, sel);
    var ids := Ids(jobs);
    assert Ids(few) == Pick(ids, sel);
    DistinctIds(jobs, graph, target, keep);
    NeedsWellFormed(few);
    forall a: nat | a < |sel|
      ensures var d := Needs(few)[a];
              (forall k :: 0 <= k < |d| ==> d[k] < |sel|) && Needs(jobs)[sel[a]] == Pick(sel, d)
    {
      forall k | 0 <= k < |few[a].needs|
        ensures few[a].needs[k].value in Pick(ids, sel)
      {
        KeptNeeds(jobs, graph, target, keep, sel[a], k);
        KeptName(jobs, keep, few[a].needs[k].value);
      }
      DepsEmbedded(ids, sel, few[a].needs);
    }
  }

  lemma DistinctIds(jobs: seq<Job>, graph: JobGraph, target: string, keep: set<string>)
    requires Pruning(jobs, graph, target, keep)
    ensures Distinct(Ids(jobs)) && AllKnown(jobs) && Acyclic(Needs(jobs))
    ensures graph.ids == Ids(jobs) && graph.byId == IndexById(Ids(jobs))
    ensures IsSchedule(Needs(jobs), graph.topoOrder, graph.wave)
  {
  }

  lemma KeptIncreasing(jobs: seq<Job>, keep: set<string>)
    ensures forall a, b :: 0 <= a < b < |Kept(jobs, keep)| ==> Kept(jobs, keep)[a] < Kept(jobs, keep)[b]
  {
  }

  lemma KeptName(jobs: seq<Job>, keep: set<string>, name: string)
    requires name in keep && name in Ids(jobs)
    ensures forall a :: 0 <= a < |Kept(jobs, keep)| ==> Kept(jobs, keep)[a] < |jobs|
    ensures name in Pick(Ids(jobs), Kept(jobs, keep))
  {
    KeptRange(jobs, keep);
    var sel := Kept(jobs, keep);
    var i :| 0 <= i < |jobs| && Ids(jobs)[i] == name;
    assert i in sel;
    var a :| 0 <= a < |sel| && sel[a] == i;
    assert Pick(Ids(jobs), sel)[a] == name;
  }

  function Locate(sel: seq<nat>, v: nat): (a: nat)
    requires v in sel
    ensures a < |sel| && sel[a] == v
  {
    if sel[0] == v then 0 else Locate(sel[1..], v) + 1
  }

  lemma RetainedInSel(sel: seq<nat>, order: seq<nat>) returns (kept: seq<nat>)
    ensures kept == Retain(order, Among(Elements(sel))) && forall k :: 0 <= k < |kept| ==> kept[k] in sel
  {
    kept := Retain(order, Among(Elements(sel)));
    assert forall k :: 0 <= k < |kept| ==> kept[k] in kept;
  }

  lemma SelClosed(h: Graph, g: Graph, sel: seq<nat>)
    requires Embeds(h, g, sel)
    ensures ClosedNodes(g, Elements(sel))
  {
    forall u, d | u in Elements(sel) && u < |g| && d in g[u]
      ensures d in Elements(sel)
    {
      var a :| 0 <= a < |sel| && sel[a] == u;
      var b := EmbeddedTarget(h, g, sel, a, d);
    }
  }

  /** The least order of the cut-down graph, read in the old numbering, is the filtered order. */
  lemma OrderCommutes(h: Graph, g: Graph, sel: seq<nat>, order: seq<nat>, order': seq<nat>)
    requires Embeds(h, g, sel)
    requires Schedule.Greedy(g, Below(|g|), order) && Schedule.IsTopological(g, Below(|g|), order)
    requires Schedule.IsLeastTopological(h, Below(|h|), order')
    ensures forall k :: 0 <= k < |order'| ==> order'[k] < |sel|
    ensures Pick(sel, order') == Retain(order, Among(Elements(sel)))
  {
    hide Schedule.Greedy, Schedule.IsTopological, Schedule.IsLeastTopological, Embeds, ClosedNodes;
    SelClosed(h, g, sel);
    FilterGreedy(g, Elements(sel), order);
    var kept := RetainedInSel(sel, order);
    var back := seq(|kept|, k requires 0 <= k < |kept| => Locate(sel, kept[k]));
    assert Pick(sel, back) == kept;
    EmbedSize(h, g, sel);
    PullGreedy(h, g, sel, back);
    forall v | v in Below(|h|)
      ensures v in back
    {
      AllPlaced(h, g, sel, order, v);
      PickMember(h, g, sel, back, v);
    }
    Schedule.GreedyLeast(h, Below(|h|), back);
    Schedule.LeastUnique(h, Below(|h|), back, order');
  }

  lemma EmbedSize(h: Graph, g: Graph, sel: seq<nat>)
    requires Embeds(h, g, sel)
    ensures |sel| == |h| && forall a :: 0 <= a < |sel| ==> sel[a] < |g|
  {
  }

  lemma AllPlaced(h: Graph, g: Graph, sel: seq<nat>, order: seq<nat>, v: nat)
    requires Embeds(h, g, sel) && Schedule.IsTopological(g, Below(|g|), order) && v < |h|
    ensures v < |sel| && sel[v] in Retain(order, Among(Elements(sel)))
  {
    assert sel[v] in Below(|g|);
  }

  lemma {:induction false} RetainNames(ids: seq<string>, sel: seq<nat>, keep: set<string>, order: seq<nat>)
    returns (kept: seq<nat>)
    requires forall k :: 0 <= k < |order| ==> order[k] < |ids|
    requires forall v: nat :: v in sel <==> v < |ids| && ids[v] in keep
    ensures kept == Retain(order, Among(Elements(sel))) && forall k :: 0 <= k < |kept| ==> kept[k] < |ids|
    ensures NamesOf(ids, kept) == Retain(NamesOf(ids, order), (id: string) => id in keep)
    decreases |order|
  {
    hide Retain, NamesOf;
    var named := (id: string) => id in keep;
    if order == [] {
      kept := [];
      NothingRetained(ids, Among(Elements(sel)), named);
    } else {
      var last := |order| - 1;
      var v := order[last];
      var before := RetainNames(ids, sel, keep, order[..last]);
      assert order == order[..last] + [v];
      NamesSnoc(ids, order[..last], v);
      RetainSnoc(order[..last], v, Among(Elements(sel)));
      RetainSnoc(NamesOf(ids, order[..last]), ids[v], named);
      NamesSnoc(ids, before, v);
      kept := before + if v in sel then [v] else [];
      assert v in sel <==> named(ids[v]);
      assert before + [] == before;
    }
  }

  lemma NothingRetained(ids: seq<string>, among: nat -> bool, named: string -> bool)
    ensures Retain<nat>([], among) == [] && Retain<string>([], named) == [] && NamesOf(ids, []) == []
  {
  }

  lemma NamesSnoc(ids: seq<string>, order: seq<nat>, v: nat)
    requires (forall k :: 0 <= k < |order| ==> order[k] < |ids|) && v < |ids|
    ensures NamesOf(ids, order + [v]) == NamesOf(ids, order) + [ids[v]]
  {
  }

  lemma RetainSnoc<T(!new)>(s: seq<T>, x: T, keep: T -> bool)
    ensures Retain(s + [x], keep) == Retain(s, keep) + if keep(x) then [x] else []
  {
    assert (s + [x])[..|s|] == s;
  }

  lemma FewKnown(jobs: seq<Job>, graph: JobGraph, target: string, keep: set<string>)
    requires Pruning(jobs, graph, target, keep)
    ensures AllKnown(Retain(jobs, KeepJob(keep)))
  {
    hide Pruning, Kept, Retain, Chosen;
    var sel := Kept(jobs, keep);
    var few := Retain(jobs, KeepJob(keep));
    FewIsPick(jobs, keep);
    KeptRange(jobs, keep);
    forall a: nat, k: nat | a < |few| && k < |few[a].needs|
      ensures Known(few, a, k)
    {
      KeptNeeds(jobs, graph, target, keep, sel[a], k);
      KeptName(jobs, keep, few[a].needs[k].value);
      assert Ids(few) == Pick(Ids(jobs), sel);
    }
  }

  lemma FewIsPick(jobs: seq<Job>, keep: set<string>)
    ensures forall a :: 0 <= a < |Kept(jobs, keep)| ==> Kept(jobs, keep)[a] < |jobs|
    ensures Retain(jobs, KeepJob(keep)) == Pick(jobs, Kept(jobs, keep))
  {
    RetainPicks(jobs, KeepJob(keep));
  }

  /** The cut-down workflow still plans. */
  lemma StillPlans(jobs: seq<Job>, graph: JobGraph, target: string, keep: set<string>,
                   result: Result<JobGraph, GraphError>)
    requires Pruning(jobs, graph, target, keep)
    requires Planned(Retain(jobs, KeepJob(keep)), result)
    ensures result.Ok?
  {
    hide Pruning, IsSchedule, Reports, IndexById;
    var few := Retain(jobs, KeepJob(keep));
    FewIsPick(jobs, keep);
    KeptEmbeds(jobs, graph, target, keep);
    NeedsWellFormed(few);
    DistinctIds(jobs, graph, target, keep);
    EmbeddedAcyclic(Needs(few), Needs(jobs), Kept(jobs, keep));
    FewKnown(jobs, graph, target, keep);
  }

  lemma WaveCommutes(jobs: seq<Job>, graph: JobGraph, target: string, keep: set<string>, graph': JobGraph, a: nat)
    requires Pruning(jobs, graph, target, keep)
    requires Planned(Retain(jobs, KeepJob(keep)), Ok(graph')) && a < |Kept(jobs, keep)|
    ensures Kept(jobs, keep)[a] < |jobs|
    ensures WaveOf(graph', jobs[Kept(jobs, keep)[a]].id) == WaveOf(graph, jobs[Kept(jobs, keep)[a]].id)
  {
    hide Pruning, IndexById, Embeds, Schedule.LongestChain, Schedule.Greedy, Schedule.IsLeastTopological, Acyclic, Kept;
    var sel := Kept(jobs, keep);
    var few := Retain(jobs, KeepJob(keep));
    FewIsPick(jobs, keep);
    KeptEmbeds(jobs, graph, target, keep);
    KeptIncreasing(jobs, keep);
    NeedsWellFormed(few);
    DistinctIds(jobs, graph, target, keep);
    assert Ids(few) == Pick(Ids(jobs), sel);
    IndexEmbedded(Ids(jobs), sel, a);
    EmbeddedChain(Needs(few), Needs(jobs), sel, a, graph.wave[sel[a]]);
    Schedule.LongestChainUnique(Needs(few), a, graph'.wave[a], graph.wave[sel[a]]);
  }

  lemma TopoInRange(jobs: seq<Job>, graph: JobGraph)
    requires Planned(jobs, Ok(graph))
    ensures |graph.ids| == |jobs| && graph.ids == Ids(jobs)
    ensures forall k :: 0 <= k < |graph.topoOrder| ==> graph.topoOrder[k] < |graph.ids|
    ensures Schedule.Greedy(Needs(jobs), Below(|jobs|), graph.topoOrder)
    ensures Schedule.IsLeastTopological(Needs(jobs), Below(|jobs|), graph.topoOrder)
    ensures Schedule.IsTopological(Needs(jobs), Below(|jobs|), graph.topoOrder)
  {
  }

  lemma TopoCommutes(jobs: seq<Job>, graph: JobGraph, target: string, keep: set<string>, graph': JobGraph)
    requires Pruning(jobs, graph, target, keep)
    requires Planned(Retain(jobs, KeepJob(keep)), Ok(graph'))
    requires forall k :: 0 <= k < |graph'.topoOrder| ==> graph'.topoOrder[k] < |graph'.ids|
    ensures NamesOf(graph'.ids, graph'.topoOrder)
         == Retain(NamesOf(graph.ids, graph.topoOrder), (id: string) => id in keep)
  {
    hide Pruning, Planned, Embeds, Schedule.IsTopological, Schedule.Greedy, Schedule.IsLeastTopological, Kept, Retain;
    var sel := Kept(jobs, keep);
    var few := Retain(jobs, KeepJob(keep));
    FewIsPick(jobs, keep);
    KeptEmbeds(jobs, graph, target, keep);
    KeptRange(jobs, keep);
    PruningPlanned(jobs, graph, target, keep);
    TopoInRange(jobs, graph);
    TopoInRange(few, graph');
    OrderCommutes(Needs(few), Needs(jobs), sel, graph.topoOrder, graph'.topoOrder);
    var kept := RetainNames(graph.ids, sel, keep, graph.topoOrder);
    assert NamesOf(graph'.ids, graph'.topoOrder) == NamesOf(graph.ids, Pick(sel, graph'.topoOrder));
  }

  lemma PruningPlanned(jobs: seq<Job>, graph: JobGraph, target: string, keep: set<string>)
    requires Pruning(jobs, graph, target, keep)
    ensures Planned(jobs, Ok(graph))
  {
  }

  /** Pruning a plan gives the plan of the pruned workflow: planning the kept jobs from
      scratch succeeds, and yields the same jobs, needs and waves in the same starting order. */
  lemma PruneIsReplan(jobs: seq<Job>, graph: JobGraph, target: string, keep: set<string>,
                      result: Result<JobGraph, GraphError>)
    requires Pruning(jobs, graph, target, keep)
    requires Planned(Retain(jobs, KeepJob(keep)), result)
    ensures result.Ok?
    ensures forall k :: 0 <= k < |result.value.topoOrder| ==> result.value.topoOrder[k] < |result.value.ids|
    ensures PlanOf(Retain(jobs, KeepJob(keep)), result.value) == Restrict(PlanOf(jobs, graph), keep)
  {
    hide Planned, Retain, Chosen, WaveOf, DistinctNames;
    StillPlans(jobs, graph, target, keep, result);
    var few := Retain(jobs, KeepJob(keep));
    var plan := PlanOf(jobs, graph);
    TopoInRange(few, result.value);
    TopoCommutes(jobs, graph, target, keep, result.value);
    FewIsPick(jobs, keep);
    var keepPlan := (j: JobPlan) => j.id in keep;
    ChosenAlike(jobs, plan.jobs, KeepJob(keep), keepPlan);
    RetainPicks(plan.jobs, keepPlan);
    var planned := PlanOf(few, result.value);
    forall a: nat | a < |few|
      ensures planned.jobs[a] == Retain(plan.jobs, keepPlan)[a]
    {
      WaveCommutes(jobs, graph, target, keep, result.value, a);
    }
    assert planned.jobs == Retain(plan.jobs, keepPlan);
  }

  /** Both ways to one job, from the workflow on: planning everything and pruning the plan, and
      pruning the workflow and planning the rest.  They meet whenever the first gets through. */
  method PruneEitherWay(jobs: seq<Job>, target: string) returns (pruned: Option<Plan>, replanned: Option<Plan>)
    requires Distinct(Ids(jobs))
    ensures pruned.Some? ==> replanned == pruned
    ensures pruned.Some? <==> AllKnown(jobs) && Acyclic(Needs(jobs)) && target in Ids(jobs)
  {
    hide Planned, Acyclic, PlanOf, Restrict, IsClosure, Pruning;
    pruned, replanned := None, None;
    var graph := BuildGraph(jobs);
    PlannedWhen(jobs, graph);
    if graph.Err? {
      return;
    }
    TopoInRange(jobs, graph.value);
    var plan := PlanOf(jobs, graph.value);
    PlanIds(jobs, graph.value);
    var result, keep := PruneToJob(plan, target);
    KnownJob(jobs, graph.value, target);
    if result.Err? {
      return;
    }
    BeginPruning(jobs, graph.value, target, keep);
    var few := Retain(jobs, KeepJob(keep));
    var again := BuildGraph(few);
    PruneIsReplan(jobs, graph.value, target, keep, again);
    return Some(result.value), Some(PlanOf(few, again.value));
  }

  lemma PlannedWhen(jobs: seq<Job>, result: Result<JobGraph, GraphError>)
    requires Planned(jobs, result)
    ensures result.Ok? <==> AllKnown(jobs) && Acyclic(Needs(jobs))
  {
    hide IsSchedule, Reports, Acyclic, IndexById;
    if result.Err? && result.error.UnknownNeed? {
      var j: nat, k: nat :| FirstUnknown(jobs, j, k)
        && result.error.span == jobs[j].needs[k].span && result.error.job == jobs[j].id
        && result.error.needs == jobs[j].needs[k].value;
      assert !Known(jobs, j, k);
    }
  }

  lemma PlanIds(jobs: seq<Job>, graph: JobGraph)
    requires forall k :: 0 <= k < |graph.topoOrder| ==> graph.topoOrder[k] < |graph.ids|
    ensures forall i :: 0 <= i < |jobs| ==> PlanOf(jobs, graph).jobs[i].id == Ids(jobs)[i]
  {
  }

  lemma KnownJob(jobs: seq<Job>, graph: JobGraph, target: string)
    requires forall k :: 0 <= k < |graph.topoOrder| ==> graph.topoOrder[k] < |graph.ids|
    ensures target in Ids(jobs) <==> exists i :: 0 <= i < |jobs| && PlanOf(jobs, graph).jobs[i].id == target
  {
    hide PlanOf;
    PlanIds(jobs, graph);
    if target in Ids(jobs) {
      var i :| 0 <= i < |jobs| && Ids(jobs)[i] == target;
      assert PlanOf(jobs, graph).jobs[i].id == target;
    }
  }

  lemma BeginPruning(jobs: seq<Job>, graph: JobGraph, target: string, keep: set<string>)
    requires Distinct(Ids(jobs)) && Planned(jobs, Ok(graph))
    requires forall k :: 0 <= k < |graph.topoOrder| ==> graph.topoOrder[k] < |graph.ids|
    requires IsClosure(PlanOf(jobs, graph).jobs, target, keep)
    ensures Pruning(jobs, graph, target, keep)
  {
  }
}
