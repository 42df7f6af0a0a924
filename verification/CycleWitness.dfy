/** The backtracking search that turns a cyclic component into one concrete loop.

    Nodes leave the search path and may be entered again under a different prefix, so
    neither termination nor success is visible locally.  Termination is measured by
    reading the unexplored edges of the path as the digits of a number; success follows
    because the search never passes any simple cycle that is still ahead of it. */
module CycleWitness {
  import opened Digraph
  import opened Names
  import opened Common
  import opened Radix

  type Nodes = seq<nat>

  /** The dependencies of each member that stay inside its component. */
  type Neighbors = map<nat, Nodes>

  /** Where a job is declared. */
  type Span = nat

  /** `span` locates the first member's declaration. */
  datatype DependencyCycle = DependencyCycle(span: Span, members: seq<string>)

  /** A closed loop through distinct nodes, written without repeating its start. */
  ghost predicate IsSimpleCycle(g: Graph, p: seq<nat>) {
    IsPath(g, p) && Distinct(p) && Edge(g, p[|p| - 1], p[0])
  }

  ghost predicate CyclicComponent(g: Graph, scc: seq<nat>) {
    && IsComponent(g, scc)
    && Distinct(scc)
    && (|scc| >= 2 || Edge(g, scc[0], scc[0]))
  }

  ghost predicate IsSmallest(ids: seq<string>, scc: seq<nat>, v: nat)
    requires forall k :: 0 <= k < |scc| ==> scc[k] < |ids|
  {
    v in scc && forall k :: 0 <= k < |scc| ==> Leq(ids[v], ids[scc[k]])
  }

  // ----- a simple cycle exists

  /** Cutting out the stretch between two visits of the same node shortens a loop. */
  lemma {:induction false} Shorten(g: Graph, w: seq<nat>) returns (p: seq<nat>)
    requires WellFormed(g) && IsPath(g, w) && Edge(g, w[|w| - 1], w[0])
    ensures IsSimpleCycle(g, p) && p[0] == w[0]
    decreases |w|
  {
    if i, j :| 0 <= i < j < |w| && w[i] == w[j] {
      var cut := w[..i] + w[j..];
      forall k | 0 <= k < |cut| - 1
        ensures Edge(g, cut[k], cut[k + 1])
      {
        if k < i {
          assert Edge(g, w[k], w[k + 1]);
        } else {
          assert Edge(g, w[k + j - i], w[k + j - i + 1]);
        }
      }
      p := Shorten(g, cut);
    } else {
      p := w;
    }
  }

  lemma SimpleCycleThrough(g: Graph, scc: seq<nat>, start: nat) returns (p: seq<nat>)
    requires WellFormed(g) && CyclicComponent(g, scc) && start in scc
    ensures IsSimpleCycle(g, p) && p[0] == start
  {
    if |scc| == 1 {
      p := [start];
    } else {
      var k :| 0 <= k < |scc| && scc[k] == start;
      var other := scc[if k == 0 then 1 else 0];
      assert other in scc && other != start;
      assert SameComponent(g, scc[k], other);
      var out :| PathBetween(g, out, start, other);
      var back :| PathBetween(g, back, other, start);
      PathAppend(g, out, back);
      var loop := out + back[1..];
      assert |loop| >= 3;
      assert Edge(g, loop[|loop| - 2], loop[|loop| - 2 + 1]);
      SubPath(g, loop, 0, |loop| - 2);
      p := Shorten(g, loop[0..|loop| - 2 + 1]);
    }
  }

  /** A loop through one member of a component never leaves it. */
  lemma CycleStaysInside(g: Graph, scc: seq<nat>, p: seq<nat>)
    requires WellFormed(g) && IsComponent(g, scc) && IsSimpleCycle(g, p) && p[0] in scc
    ensures forall i :: 0 <= i < |p| ==> p[i] in scc
  {
    var k :| 0 <= k < |scc| && scc[k] == p[0];
    forall i | 0 <= i < |p|
      ensures p[i] in scc
    {
      SubPath(g, p, 0, i);
      SubPath(g, p, i, |p| - 1);
      ReachEdge(g, p[|p| - 1], p[0]);
      ReachTrans(g, p[i], p[|p| - 1], p[0]);
      assert SameComponent(g, scc[k], p[i]);
    }
  }

  // ----- the search

  ghost predicate NeighborsOf(g: Graph, scc: seq<nat>, nbrs: Neighbors) {
    && (forall v :: v in nbrs <==> v in scc)
    && (forall v, w :: v in nbrs ==> (w in nbrs[v] <==> Edge(g, v, w) && w in scc))
  }

  /** The loop invariant on the path, apart from what is still ahead. */
  ghost predicate Walking(g: Graph, start: nat, nbrs: Neighbors, path: seq<nat>, cursors: seq<nat>) {
    && |path| == |cursors|
    && Distinct(path)
    && (path != [] ==> path[0] == start && IsPath(g, path))
    && (forall i :: 0 <= i < |path| ==> path[i] in nbrs && cursors[i] <= |nbrs[path[i]]|)
  }

  ghost function Left(nbrs: Neighbors, path: seq<nat>, cursors: seq<nat>): (left: seq<nat>)
    requires |path| == |cursors|
    requires forall i :: 0 <= i < |path| ==> path[i] in nbrs && cursors[i] <= |nbrs[path[i]]|
    ensures |left| == |path|
  {
    seq(|path|, i requires 0 <= i < |path| => (|nbrs[path[i]]| - cursors[i]) as nat)
  }

  ghost function NextOn(target: seq<nat>, k: nat): nat
    requires 0 < k <= |target|
  {
    if k < |target| then target[k] else target[0]
  }

  /** The search agrees with `target` for `k` nodes, and the edge `target` takes next is
      among those level `k` has not looked at. */
  ghost predicate AheadAt(nbrs: Neighbors, target: seq<nat>, path: seq<nat>, cursors: seq<nat>, k: nat, j: nat)
    requires |path| == |cursors|
  {
    && 0 < k <= |path| && k <= |target|
    && path[..k] == target[..k]
    && path[k - 1] in nbrs
    && cursors[k - 1] <= j < |nbrs[path[k - 1]]|
    && nbrs[path[k - 1]][j] == NextOn(target, k)
  }

  ghost predicate Ahead(nbrs: Neighbors, target: seq<nat>, path: seq<nat>, cursors: seq<nat>)
    requires |path| == |cursors|
  {
    exists k: nat, j: nat :: AheadAt(nbrs, target, path, cursors, k, j)
  }

  ghost predicate Target(g: Graph, scc: seq<nat>, start: nat, target: seq<nat>) {
    && IsSimpleCycle(g, target)
    && target[0] == start
    && forall i :: 0 <= i < |target| ==> target[i] in scc
  }

  lemma TargetEdge(g: Graph, scc: seq<nat>, start: nat, nbrs: Neighbors, target: seq<nat>, k: nat) returns (j: nat)
    requires NeighborsOf(g, scc, nbrs) && Target(g, scc, start, target) && 0 < k <= |target|
    ensures target[k - 1] in nbrs && j < |nbrs[target[k - 1]]| && nbrs[target[k - 1]][j] == NextOn(target, k)
  {
    var v := target[k - 1];
    assert v in scc;
    if k < |target| {
      assert Edge(g, target[k - 1], target[k - 1 + 1]);
    }
    assert NextOn(target, k) in nbrs[v];
    j :| 0 <= j < |nbrs[v]| && nbrs[v][j] == NextOn(target, k);
  }

  lemma StartAhead(g: Graph, scc: seq<nat>, start: nat, nbrs: Neighbors, target: seq<nat>)
    requires NeighborsOf(g, scc, nbrs) && Target(g, scc, start, target)
    ensures Ahead(nbrs, target, [start], [0])
  {
    var j := TargetEdge(g, scc, start, nbrs, target, 1);
    assert AheadAt(nbrs, target, [start], [0], 1, j);
  }

  lemma RetreatAhead(nbrs: Neighbors, target: seq<nat>, path: seq<nat>, cursors: seq<nat>)
    requires |path| == |cursors| > 0 && Ahead(nbrs, target, path, cursors)
    requires path[|path| - 1] in nbrs && cursors[|path| - 1] >= |nbrs[path[|path| - 1]]|
    ensures Ahead(nbrs, target, path[..|path| - 1], cursors[..|path| - 1])
  {
    var k: nat, j: nat :| AheadAt(nbrs, target, path, cursors, k, j);
    assert path[..|path| - 1][..k] == path[..k];
    assert AheadAt(nbrs, target, path[..|path| - 1], cursors[..|path| - 1], k, j);
  }

  /** A simple cycle moves on to a node it has not visited, or back to its start. */
  lemma NextIsNew(target: seq<nat>, k: nat)
    requires Distinct(target) && 0 < k <= |target|
    ensures NextOn(target, k) == target[0] || NextOn(target, k) !in target[..k]
  {
  }

  /** Skipping a neighbour that is already on the path keeps the target ahead. */
  lemma SkipAhead(nbrs: Neighbors, target: seq<nat>, path: seq<nat>, cursors: seq<nat>)
    requires |path| == |cursors| > 0 && Ahead(nbrs, target, path, cursors) && Distinct(target)
    requires var top := |path| - 1;
             path[top] in nbrs && cursors[top] < |nbrs[path[top]]|
             && nbrs[path[top]][cursors[top]] in path && nbrs[path[top]][cursors[top]] != target[0]
    ensures Ahead(nbrs, target, path, cursors[|path| - 1 := cursors[|path| - 1] + 1])
  {
    var top := |path| - 1;
    var next := nbrs[path[top]][cursors[top]];
    var k: nat, j: nat :| AheadAt(nbrs, target, path, cursors, k, j);
    NextIsNew(target, k);
    if k == |path| {
      assert path[..k] == path;
    }
    assert AheadAt(nbrs, target, path, cursors[top := cursors[top] + 1], k, j);
  }

  lemma DescendAhead(g: Graph, scc: seq<nat>, start: nat, nbrs: Neighbors, target: seq<nat>,
                     path: seq<nat>, cursors: seq<nat>)
    requires NeighborsOf(g, scc, nbrs) && Target(g, scc, start, target)
    requires |path| == |cursors| > 0 && Ahead(nbrs, target, path, cursors)
    requires var top := |path| - 1;
             path[top] in nbrs && cursors[top] < |nbrs[path[top]]| && nbrs[path[top]][cursors[top]] != target[0]
    ensures var top := |path| - 1;
            Ahead(nbrs, target, path + [nbrs[path[top]][cursors[top]]], cursors[top := cursors[top] + 1] + [0])
  {
    hide IsPath, Distinct, NeighborsOf;
    var top := |path| - 1;
    var next := nbrs[path[top]][cursors[top]];
    var path', cursors' := path + [next], cursors[top := cursors[top] + 1] + [0];
    var k: nat, j: nat :| AheadAt(nbrs, target, path, cursors, k, j);
    assert path'[..k] == path[..k];
    if k == |path| && j == cursors[top] {
      var j' := TargetEdge(g, scc, start, nbrs, target, k + 1);
      assert path'[..k + 1] == target[..k + 1];
      assert AheadAt(nbrs, target, path', cursors', k + 1, j');
    } else {
      assert AheadAt(nbrs, target, path', cursors', k, j);
    }
  }

  /** Every neighbour list is shorter than the base of the measure. */
  ghost predicate Fits(nbrs: Neighbors, base: nat) {
    forall v :: v in nbrs ==> |nbrs[v]| + 1 < base
  }

  lemma {:induction false} SomeBase(nbrs: Neighbors, pool: set<nat>) returns (base: nat)
    requires pool <= nbrs.Keys
    ensures base > 1 && forall v :: v in pool ==> |nbrs[v]| + 1 < base
    decreases pool
  {
    if pool == {} {
      base := 2;
    } else {
      var v :| v in pool;
      base := SomeBase(nbrs, pool - {v});
      if |nbrs[v]| + 1 >= base {
        base := |nbrs[v]| + 2;
      }
    }
  }

  ghost function Measure(nbrs: Neighbors, scc: seq<nat>, path: seq<nat>, cursors: seq<nat>, base: nat): nat
    requires |path| == |cursors| <= |scc|
    requires forall i :: 0 <= i < |path| ==> path[i] in nbrs && cursors[i] <= |nbrs[path[i]]|
  {
    Work(Left(nbrs, path, cursors), |scc| + 1, base)
  }

  lemma PathFits(g: Graph, scc: seq<nat>, start: nat, nbrs: Neighbors, path: seq<nat>, cursors: seq<nat>)
    requires NeighborsOf(g, scc, nbrs) && Walking(g, start, nbrs, path, cursors)
    ensures |path| <= |scc|
  {
    ElementsSize(scc);
    assert forall i :: 0 <= i < |path| ==> path[i] in nbrs;
    DistinctFits(path, Elements(scc));
  }

  lemma ExtendPath(g: Graph, start: nat, nbrs: Neighbors, path: seq<nat>, cursors: seq<nat>, next: nat)
    requires Walking(g, start, nbrs, path, cursors) && path != []
    requires Edge(g, path[|path| - 1], next) && next !in path && next in nbrs
    ensures Walking(g, start, nbrs, path + [next], cursors + [0])
  {
    var q := path + [next];
    forall i | 0 <= i < |q| - 1
      ensures Edge(g, q[i], q[i + 1])
    {
      if i < |path| - 1 {
        assert Edge(g, path[i], path[i + 1]);
      }
    }
  }

  lemma DropLast(g: Graph, start: nat, nbrs: Neighbors, path: seq<nat>, cursors: seq<nat>)
    requires Walking(g, start, nbrs, path, cursors) && path != []
    ensures Walking(g, start, nbrs, path[..|path| - 1], cursors[..|path| - 1])
  {
    var q := path[..|path| - 1];
    forall i | 0 <= i < |q| - 1
      ensures Edge(g, q[i], q[i + 1])
    {
      assert Edge(g, path[i], path[i + 1]);
    }
  }

  lemma DescendMeasure(nbrs: Neighbors, scc: seq<nat>, path: seq<nat>, cursors: seq<nat>, next: nat, base: nat)
    requires 0 < |path| == |cursors| < |scc|
    requires forall i :: 0 <= i < |path| ==> path[i] in nbrs && cursors[i] <= |nbrs[path[i]]|
    requires cursors[|path| - 1] < |nbrs[path[|path| - 1]]| && next in nbrs && Fits(nbrs, base)
    ensures Measure(nbrs, scc, path + [next], cursors[|path| - 1 := cursors[|path| - 1] + 1] + [0], base)
          < Measure(nbrs, scc, path, cursors, base)
  {
    var top := |path| - 1;
    var left := Left(nbrs, path, cursors);
    var left' := Left(nbrs, path + [next], cursors[top := cursors[top] + 1] + [0]);
    var front := left[..top];
    assert left == front + [left[top]];
    assert left' == front + [left[top] - 1] + [|nbrs[next]|];
    DescendShrinks(front, left[top], |nbrs[next]|, |scc| + 1, base);
  }

  lemma SkipMeasure(nbrs: Neighbors, scc: seq<nat>, path: seq<nat>, cursors: seq<nat>, base: nat)
    requires 0 < |path| == |cursors| <= |scc| && base > 0
    requires forall i :: 0 <= i < |path| ==> path[i] in nbrs && cursors[i] <= |nbrs[path[i]]|
    requires cursors[|path| - 1] < |nbrs[path[|path| - 1]]|
    ensures Measure(nbrs, scc, path, cursors[|path| - 1 := cursors[|path| - 1] + 1], base)
          < Measure(nbrs, scc, path, cursors, base)
  {
    var top := |path| - 1;
    var left := Left(nbrs, path, cursors);
    var left' := Left(nbrs, path, cursors[top := cursors[top] + 1]);
    var front := left[..top];
    assert left == front + [left[top]];
    assert left' == front + [left[top] - 1];
    AdvanceShrinks(front, left[top], |scc| + 1, base);
  }

  lemma RetreatMeasure(nbrs: Neighbors, scc: seq<nat>, path: seq<nat>, cursors: seq<nat>, base: nat)
    requires 0 < |path| == |cursors| <= |scc| && base > 0
    requires forall i :: 0 <= i < |path| ==> path[i] in nbrs && cursors[i] <= |nbrs[path[i]]|
    ensures Measure(nbrs, scc, path[..|path| - 1], cursors[..|path| - 1], base)
          < Measure(nbrs, scc, path, cursors, base)
  {
    var top := |path| - 1;
    var left := Left(nbrs, path, cursors);
    var left' := Left(nbrs, path[..top], cursors[..top]);
    assert left == left' + [left[top]];
    RetreatShrinks(left', left[top], |scc| + 1, base);
  }

  /** Everything the search maintains. */
  ghost predicate Searching(g: Graph, scc: seq<nat>, start: nat, nbrs: Neighbors, target: seq<nat>, base: nat,
                            path: seq<nat>, cursors: seq<nat>) {
    && NeighborsOf(g, scc, nbrs)
    && Target(g, scc, start, target)
    && base > 1 && Fits(nbrs, base)
    && |path| == |cursors| <= |scc|
    && Walking(g, start, nbrs, path, cursors)
    && AllAhead(g, scc, start, nbrs, path, cursors)
    && Trail(nbrs, path, cursors)
  }

  ghost predicate AllAhead(g: Graph, scc: seq<nat>, start: nat, nbrs: Neighbors, path: seq<nat>, cursors: seq<nat>)
    requires |path| == |cursors|
  {
    forall q :: Target(g, scc, start, q) ==> Ahead(nbrs, q, path, cursors)
  }

  /** Every node on the path is the neighbour its predecessor looked at last. */
  ghost predicate Trail(nbrs: Neighbors, path: seq<nat>, cursors: seq<nat>)
    requires |path| == |cursors|
  {
    forall i :: 0 <= i < |path| - 1 ==>
      path[i] in nbrs && 0 < cursors[i] <= |nbrs[path[i]]| && nbrs[path[i]][cursors[i] - 1] == path[i + 1]
  }

  ghost function Fuel(g: Graph, scc: seq<nat>, start: nat, nbrs: Neighbors, target: seq<nat>, base: nat,
                      path: seq<nat>, cursors: seq<nat>): nat {
    if Searching(g, scc, start, nbrs, target, base, path, cursors) then Measure(nbrs, scc, path, cursors, base) else 0
  }

  lemma SearchFacts(g: Graph, scc: seq<nat>, start: nat, nbrs: Neighbors, target: seq<nat>, base: nat,
                    path: seq<nat>, cursors: seq<nat>)
    requires Searching(g, scc, start, nbrs, target, base, path, cursors)
    ensures |path| == |cursors| > 0 && IsPath(g, path) && Distinct(path) && path[0] == start == target[0]
    ensures forall i :: 0 <= i < |path| ==> path[i] in scc && path[i] in nbrs
    ensures forall v, w :: v in nbrs ==> (w in nbrs[v] <==> Edge(g, v, w) && w in scc)
  {
    assert Ahead(nbrs, target, path, cursors);
    assert forall i :: 0 <= i < |path| ==> path[i] in nbrs;
  }

  lemma TargetStart(g: Graph, scc: seq<nat>, start: nat, q: seq<nat>)
    requires Target(g, scc, start, q)
    ensures q != [] && q[0] == start && Distinct(q)
  {
  }

  lemma Retreat(g: Graph, scc: seq<nat>, start: nat, nbrs: Neighbors, target: seq<nat>, base: nat,
                path: seq<nat>, cursors: seq<nat>)
    requires Searching(g, scc, start, nbrs, target, base, path, cursors) && path != []
    requires path[|path| - 1] in nbrs && cursors[|path| - 1] >= |nbrs[path[|path| - 1]]|
    ensures Searching(g, scc, start, nbrs, target, base, path[..|path| - 1], cursors[..|path| - 1])
    ensures Fuel(g, scc, start, nbrs, target, base, path[..|path| - 1], cursors[..|path| - 1])
          < Fuel(g, scc, start, nbrs, target, base, path, cursors)
  {
    hide Ahead, Measure, Target, NeighborsOf, Fits, IsPath;
    forall q | Target(g, scc, start, q)
      ensures Ahead(nbrs, q, path[..|path| - 1], cursors[..|path| - 1])
    {
      RetreatAhead(nbrs, q, path, cursors);
    }
    RetreatMeasure(nbrs, scc, path, cursors, base);
    DropLast(g, start, nbrs, path, cursors);
  }

  lemma Descend(g: Graph, scc: seq<nat>, start: nat, nbrs: Neighbors, target: seq<nat>, base: nat,
                path: seq<nat>, cursors: seq<nat>, next: nat)
    requires Searching(g, scc, start, nbrs, target, base, path, cursors) && path != []
    requires path[|path| - 1] in nbrs && cursors[|path| - 1] < |nbrs[path[|path| - 1]]|
    requires next == nbrs[path[|path| - 1]][cursors[|path| - 1]] && next != start && next !in path
    ensures Searching(g, scc, start, nbrs, target, base, path + [next],
                      cursors[|path| - 1 := cursors[|path| - 1] + 1] + [0])
    ensures Fuel(g, scc, start, nbrs, target, base, path + [next], cursors[|path| - 1 := cursors[|path| - 1] + 1] + [0])
          < Fuel(g, scc, start, nbrs, target, base, path, cursors)
  {
    hide Ahead, Measure, Fits, IsPath, Target, Edge;
    var top := |path| - 1;
    assert next in nbrs[path[top]];
    assert next in nbrs;
    forall q | Target(g, scc, start, q)
      ensures Ahead(nbrs, q, path + [next], cursors[top := cursors[top] + 1] + [0])
    {
      TargetStart(g, scc, start, q);
      DescendAhead(g, scc, start, nbrs, q, path, cursors);
    }
    ExtendPath(g, start, nbrs, path, cursors[top := cursors[top] + 1], next);
    PathFits(g, scc, start, nbrs, path + [next], cursors[top := cursors[top] + 1] + [0]);
    DescendMeasure(nbrs, scc, path, cursors, next, base);
  }

  lemma Skip(g: Graph, scc: seq<nat>, start: nat, nbrs: Neighbors, target: seq<nat>, base: nat,
             path: seq<nat>, cursors: seq<nat>, next: nat)
    requires Searching(g, scc, start, nbrs, target, base, path, cursors) && path != []
    requires path[|path| - 1] in nbrs && cursors[|path| - 1] < |nbrs[path[|path| - 1]]|
    requires next == nbrs[path[|path| - 1]][cursors[|path| - 1]] && next != start && next in path
    ensures Searching(g, scc, start, nbrs, target, base, path, cursors[|path| - 1 := cursors[|path| - 1] + 1])
    ensures Fuel(g, scc, start, nbrs, target, base, path, cursors[|path| - 1 := cursors[|path| - 1] + 1])
          < Fuel(g, scc, start, nbrs, target, base, path, cursors)
  {
    hide Ahead, Measure, Fits, IsPath, NeighborsOf, Target;
    forall q | Target(g, scc, start, q)
      ensures Ahead(nbrs, q, path, cursors[|path| - 1 := cursors[|path| - 1] + 1])
    {
      TargetStart(g, scc, start, q);
      SkipAhead(nbrs, q, path, cursors);
    }
    SkipMeasure(nbrs, scc, path, cursors, base);
  }

  /** The first member with the smallest id. */
  method SmallestMember(ids: seq<string>, scc: seq<nat>) returns (start: nat)
    requires scc != [] && forall k :: 0 <= k < |scc| ==> scc[k] < |ids|
    ensures IsSmallest(ids, scc, start)
  {
    start := scc[0];
    LeqReflexive(ids[start]);
    for k := 1 to |scc|
      invariant start in scc
      invariant forall i :: 0 <= i < k ==> Leq(ids[start], ids[scc[i]])
    {
      LeqTotal(ids[start], ids[scc[k]]);
      if !Leq(ids[start], ids[scc[k]]) {
        forall i | 0 <= i < k
          ensures Leq(ids[scc[k]], ids[scc[i]])
        {
          LeqTransitive(ids[scc[k]], ids[start], ids[scc[i]]);
        }
        start := scc[k];
        LeqReflexive(ids[start]);
      }
    }
  }

  function Keep(s: seq<nat>, members: set<nat>): (r: seq<nat>)
    ensures forall v :: v in r <==> v in s && v in members
  {
    if s == [] then [] else
    if s[0] in members then [s[0]] + Keep(s[1..], members) else Keep(s[1..], members)
  }

  lemma NeighborsStep(g: Graph, scc: seq<nat>, k: nat, nbrs: Neighbors, kept: seq<nat>)
    requires k < |scc| && NeighborsUpTo(g, scc, k, nbrs)
    requires forall w :: w in kept <==> Edge(g, scc[k], w) && w in scc
    ensures NeighborsUpTo(g, scc, k + 1, nbrs[scc[k] := kept])
  {
    assert scc[..k + 1] == scc[..k] + [scc[k]];
  }

  ghost predicate NeighborsUpTo(g: Graph, scc: seq<nat>, k: nat, nbrs: Neighbors)
    requires k <= |scc|
  {
    && (forall v :: v in nbrs <==> v in scc[..k])
    && (forall v, w :: v in nbrs ==> (w in nbrs[v] <==> Edge(g, v, w) && w in scc))
  }

  ghost predicate SortedNbrs(nbrs: Neighbors, key: nat -> string) {
    forall v :: v in nbrs ==> SortedBy(nbrs[v], key)
  }

  ghost predicate DistinctNbrs(nbrs: Neighbors) {
    forall v :: v in nbrs ==> Distinct(nbrs[v])
  }

  lemma {:induction false} KeepDistinct(s: seq<nat>, members: set<nat>)
    requires Distinct(s)
    ensures Distinct(Keep(s, members))
  {
    if s != [] {
      KeepDistinct(s[1..], members);
    }
  }

  function IdOf(ids: seq<string>): nat -> string {
    (v: nat) => if v < |ids| then ids[v] else ""
  }

  /** Each member's dependencies inside the component, sorted by id. */
  method SortedNeighbors(g: Graph, ids: seq<string>, scc: seq<nat>) returns (nbrs: Neighbors)
    requires |ids| == |g| && forall k :: 0 <= k < |scc| ==> scc[k] < |g|
    ensures NeighborsOf(g, scc, nbrs) && SortedNbrs(nbrs, IdOf(ids))
    ensures NoRepeatedEdges(g) ==> DistinctNbrs(nbrs)
  {
    hide SortedBy, IdOf, Distinct;
    var members := Elements(scc);
    var key := IdOf(ids);
    nbrs := map[];
    for k := 0 to |scc|
      invariant NeighborsUpTo(g, scc, k, nbrs) && SortedNbrs(nbrs, key)
      invariant NoRepeatedEdges(g) ==> DistinctNbrs(nbrs)
    {
      var kept := Keep(g[scc[k]], members);
      SortMembers(kept, key);
      NeighborsStep(g, scc, k, nbrs, Sort(kept, key));
      if NoRepeatedEdges(g) {
        KeepDistinct(g[scc[k]], members);
        SortDistinct(kept, key);
      }
      nbrs := nbrs[scc[k] := Sort(kept, key)];
    }
    assert scc[..|scc|] == scc;
  }

  /** The names along `p`. */
  function NamesOf(ids: seq<string>, p: seq<nat>): (r: seq<string>)
    requires forall i :: 0 <= i < |p| ==> p[i] < |ids|
    ensures |r| == |p| && forall i :: 0 <= i < |p| ==> r[i] == ids[p[i]]
  {
    seq(|p|, i requires 0 <= i < |p| => ids[p[i]])
  }

  /** `p` is `q`'s beginning (and closes there), or at their first difference `p` takes the
      smaller id. */
  ghost predicate NotAfter(ids: seq<string>, p: seq<nat>, q: seq<nat>)
  {
    exists k :: 0 < k <= |p| && k <= |q| && p[..k] == q[..k]
      && (k == |p| || (k < |q| && p[k] != q[k] && p[k] < |ids| && q[k] < |ids| && Leq(ids[p[k]], ids[q[k]])))
  }

  /** Among the simple cycles with the same start, `p` comes first in id order. */
  ghost predicate IsFirstLoop(g: Graph, ids: seq<string>, scc: seq<nat>, p: seq<nat>)
    requires p != []
  {
    forall q :: Target(g, scc, p[0], q) ==> NotAfter(ids, p, q)
  }

  /** `cycle` displays the simple cycle `p`, which runs inside `scc` from its smallest member. */
  ghost predicate Displays(g: Graph, ids: seq<string>, spans: seq<Span>, scc: seq<nat>, cycle: DependencyCycle,
                           p: seq<nat>)
    requires |ids| == |spans| == |g| && forall k :: 0 <= k < |scc| ==> scc[k] < |g|
  {
    && IsSimpleCycle(g, p)
    && (forall i :: 0 <= i < |p| ==> p[i] in scc)
    && IsSmallest(ids, scc, p[0])
    && cycle.span == spans[p[0]]
    && cycle.members == NamesOf(ids, p)
    && (Distinct(ids) && NoRepeatedEdges(g) ==> IsFirstLoop(g, ids, scc, p))
  }

  /** For every cyclic component the search ends and finds a loop: the `None` results of the
      original are unreachable. */
  method BuildCycleDisplay(g: Graph, ids: seq<string>, spans: seq<Span>, scc: seq<nat>)
    returns (result: Option<DependencyCycle>, ghost loop: seq<nat>)
    requires WellFormed(g) && |ids| == |spans| == |g| && CyclicComponent(g, scc)
    ensures result.Some? && Displays(g, ids, spans, scc, result.value, loop)
  {
    hide NeighborsOf, IsPath, IsSimpleCycle, Distinct, Searching, Fuel, SortedNbrs, DistinctNbrs, NoRepeatedEdges,
         IsComponent, IsFirstLoop, IsSmallest;
    ComponentInRange(g, scc);
    var start := SmallestMember(ids, scc);
    var nbrs := SortedNeighbors(g, ids, scc);
    var path, cursors := [start], [0];
    var onPath := {start};
    ghost var target, base := Setup(g, scc, start, nbrs);
    while path != []
      invariant Searching(g, scc, start, nbrs, target, base, path, cursors)
      invariant forall v :: v in onPath <==> v in path
      decreases Fuel(g, scc, start, nbrs, target, base, path, cursors)
    {
      SearchFacts(g, scc, start, nbrs, target, base, path, cursors);
      var top := |path| - 1;
      var current := path[top];
      if cursors[top] >= |nbrs[current]| {
        Retreat(g, scc, start, nbrs, target, base, path, cursors);
        LastLeaves(path);
        path, cursors := path[..top], cursors[..top];
        onPath := onPath - {current};
        continue;
      }
      var next := nbrs[current][cursors[top]];
      if next == start {
        LoopFound(g, path, next);
        if Distinct(ids) && NoRepeatedEdges(g) {
          FirstLoop(g, ids, scc, start, nbrs, target, base, path, cursors);
        }
        return Some(DependencyCycle(spans[start], NamesOf(ids, path))), path;
      }
      if next !in onPath {
        Descend(g, scc, start, nbrs, target, base, path, cursors, next);
        path, cursors := path + [next], cursors[top := cursors[top] + 1] + [0];
        onPath := onPath + {next};
      } else {
        Skip(g, scc, start, nbrs, target, base, path, cursors, next);
        cursors := cursors[top := cursors[top] + 1];
      }
    }
    SearchFacts(g, scc, start, nbrs, target, base, path, cursors);
    return None, [];
  }

  lemma ComponentInRange(g: Graph, scc: seq<nat>)
    requires IsComponent(g, scc)
    ensures scc != [] && forall k :: 0 <= k < |scc| ==> scc[k] < |g|
  {
  }

  lemma Setup(g: Graph, scc: seq<nat>, start: nat, nbrs: Neighbors) returns (target: seq<nat>, base: nat)
    requires WellFormed(g) && CyclicComponent(g, scc) && start in scc && NeighborsOf(g, scc, nbrs)
    ensures Searching(g, scc, start, nbrs, target, base, [start], [0])
  {
    hide IsComponent;
    target := SimpleCycleThrough(g, scc, start);
    CycleStaysInside(g, scc, target);
    base := SomeBase(nbrs, nbrs.Keys);
    forall q | Target(g, scc, start, q)
      ensures Ahead(nbrs, q, [start], [0])
    {
      StartAhead(g, scc, start, nbrs, q);
    }
    PathFits(g, scc, start, nbrs, [start], [0]);
  }

  /** The search tries smaller ids first, so it cannot have overtaken a loop. */
  lemma NotAfterTarget(g: Graph, ids: seq<string>, scc: seq<nat>, start: nat, nbrs: Neighbors,
                       path: seq<nat>, cursors: seq<nat>, q: seq<nat>)
    requires |path| == |cursors| > 0 && Distinct(path) && path[0] == start
    requires SortedNbrs(nbrs, IdOf(ids)) && DistinctNbrs(nbrs) && Distinct(ids)
    requires forall k :: 0 <= k < |scc| ==> scc[k] < |ids|
    requires forall i :: 0 <= i < |path| ==> path[i] in scc
    requires IsSmallest(ids, scc, start) && Target(g, scc, start, q)
    requires Ahead(nbrs, q, path, cursors) && Trail(nbrs, path, cursors)
    requires forall i :: 0 <= i < |q| ==> q[i] < |ids|
    ensures NotAfter(ids, path, q)
  {
    hide IsSimpleCycle;
    var k: nat, j: nat :| AheadAt(nbrs, q, path, cursors, k, j);
    if k < |path| {
      var list := nbrs[path[k - 1]];
      assert path[k - 1 + 1] == list[cursors[k - 1] - 1];
      assert SortedBy(list, IdOf(ids)) && Distinct(list);
      assert Leq(IdOf(ids)(path[k]), IdOf(ids)(list[j]));
      assert path[k] in scc;
      if k == |q| {
        var m :| 0 <= m < |scc| && scc[m] == path[k];
        LeqAntisymmetric(ids[path[k]], ids[start]);
      }
    }
  }

  lemma FirstLoop(g: Graph, ids: seq<string>, scc: seq<nat>, start: nat, nbrs: Neighbors, target: seq<nat>, base: nat,
                  path: seq<nat>, cursors: seq<nat>)
    requires Searching(g, scc, start, nbrs, target, base, path, cursors) && path != []
    requires SortedNbrs(nbrs, IdOf(ids)) && DistinctNbrs(nbrs) && Distinct(ids)
    requires forall k :: 0 <= k < |scc| ==> scc[k] < |ids|
    requires forall i :: 0 <= i < |path| ==> path[i] in scc
    requires IsSmallest(ids, scc, start)
    ensures path[0] == start && IsFirstLoop(g, ids, scc, path)
  {
    hide Ahead, Trail, Target, NeighborsOf, Fits, SortedNbrs, DistinctNbrs, NotAfter, IsPath, IsSmallest;
    forall q | Target(g, scc, start, q)
      ensures NotAfter(ids, path, q)
    {
      InRange(ids, scc, q, g, start);
      NotAfterTarget(g, ids, scc, start, nbrs, path, cursors, q);
    }
  }

  lemma InRange(ids: seq<string>, scc: seq<nat>, q: seq<nat>, g: Graph, start: nat)
    requires Target(g, scc, start, q) && forall k :: 0 <= k < |scc| ==> scc[k] < |ids|
    ensures forall i :: 0 <= i < |q| ==> q[i] < |ids|
  {
    forall i | 0 <= i < |q|
      ensures q[i] < |ids|
    {
      assert q[i] in scc;
    }
  }

  lemma LoopFound(g: Graph, path: seq<nat>, next: nat)
    requires IsPath(g, path) && Distinct(path) && Edge(g, path[|path| - 1], next) && next == path[0]
    ensures IsSimpleCycle(g, path)
  {
  }

  lemma LastLeaves(path: seq<nat>)
    requires Distinct(path) && path != []
    ensures forall v :: v in path[..|path| - 1] <==> v in path && v != path[|path| - 1]
  {
    assert path == path[..|path| - 1] + [path[|path| - 1]];
  }
}
