/** The order jobs start in: Kahn's algorithm over a min-heap of declaration indices, and
    the wave (longest dependency chain) of every job. */
module Schedule {
  import opened Digraph

  // ----- what an order should be

  /** `v` may run next: it belongs to `nodes`, has not run, and everything it needs has. */
  ghost predicate Ready(g: Graph, nodes: set<nat>, done: seq<nat>, v: nat) {
    v < |g| && v in nodes && v !in done && forall d :: d in g[v] ==> d in done
  }

  /** At every position the smallest index that is ready runs. */
  ghost predicate Greedy(g: Graph, nodes: set<nat>, order: seq<nat>) {
    forall k :: 0 <= k < |order| ==>
      && Ready(g, nodes, order[..k], order[k])
      && forall v: nat :: Ready(g, nodes, order[..k], v) ==> order[k] <= v
  }

  /** A dependency-respecting order of exactly `nodes`. */
  ghost predicate IsTopological(g: Graph, nodes: set<nat>, order: seq<nat>) {
    && Distinct(order)
    && (forall v :: v in nodes <==> v in order)
    && (forall k :: 0 <= k < |order| ==> order[k] < |g|)
    && (forall k, d :: 0 <= k < |order| && d in g[order[k]] ==> d in order[..k])
  }

  ghost predicate LexLeq(a: seq<nat>, b: seq<nat>) {
    a <= b || exists k :: 0 <= k < |a| && k < |b| && a[..k] == b[..k] && a[k] < b[k]
  }

  /** The order the planner promises: topological, and smallest by declaration index. */
  ghost predicate IsLeastTopological(g: Graph, nodes: set<nat>, order: seq<nat>) {
    && IsTopological(g, nodes, order)
    && forall t :: IsTopological(g, nodes, t) ==> LexLeq(order, t)
  }

  lemma GreedyDistinct(g: Graph, nodes: set<nat>, order: seq<nat>)
    requires Greedy(g, nodes, order)
    ensures Distinct(order)
    ensures forall k :: 0 <= k < |order| ==> order[k] in nodes && order[k] < |g|
  {
    forall i, j | 0 <= i < j < |order|
      ensures order[i] != order[j]
    {
      assert Ready(g, nodes, order[..j], order[j]);
      assert order[i] == order[..j][i];
    }
  }

  lemma GreedyTopological(g: Graph, nodes: set<nat>, order: seq<nat>)
    requires Greedy(g, nodes, order)
    requires forall v :: v in nodes ==> v in order
    ensures IsTopological(g, nodes, order)
  {
    GreedyDistinct(g, nodes, order);
    forall k, d | 0 <= k < |order| && d in g[order[k]]
      ensures d in order[..k]
    {
      assert Ready(g, nodes, order[..k], order[k]);
    }
  }

  /** Two sequences agree up to some point and then differ or end. */
  lemma {:induction false} FirstDifference(a: seq<nat>, b: seq<nat>) returns (k: nat)
    ensures k <= |a| && k <= |b| && a[..k] == b[..k]
    ensures k == |a| || k == |b| || a[k] != b[k]
  {
    k := 0;
    while k < |a| && k < |b| && a[k] == b[k]
      invariant k <= |a| && k <= |b| && a[..k] == b[..k]
    {
      k := k + 1;
    }
  }

  /** Being greedy is being least: any other valid order first differs by a larger index. */
  lemma GreedyLeast(g: Graph, nodes: set<nat>, order: seq<nat>)
    requires Greedy(g, nodes, order)
    requires forall v :: v in nodes ==> v in order
    ensures IsLeastTopological(g, nodes, order)
  {
    GreedyTopological(g, nodes, order);
    forall t | IsTopological(g, nodes, t)
      ensures LexLeq(order, t)
    {
      GreedyBefore(g, nodes, order, t);
    }
  }

  lemma GreedyBefore(g: Graph, nodes: set<nat>, order: seq<nat>, t: seq<nat>)
    requires Greedy(g, nodes, order) && IsTopological(g, nodes, order) && IsTopological(g, nodes, t)
    ensures LexLeq(order, t)
  {
    hide IsTopological, Greedy, Ready;
    TopologicalSameLength(g, nodes, order, t);
    var k := FirstDifference(order, t);
    if k < |order| {
      NextInOther(g, nodes, t, k);
      GreedyMinimal(g, nodes, order, k, t[k]);
    }
  }

  lemma TopologicalSameLength(g: Graph, nodes: set<nat>, a: seq<nat>, b: seq<nat>)
    requires IsTopological(g, nodes, a) && IsTopological(g, nodes, b)
    ensures |a| == |b|
  {
    SameLength(a, b);
  }

  lemma GreedyMinimal(g: Graph, nodes: set<nat>, order: seq<nat>, k: nat, v: nat)
    requires Greedy(g, nodes, order) && k < |order| && Ready(g, nodes, order[..k], v)
    ensures order[k] <= v
  {
  }

  lemma NextInOther(g: Graph, nodes: set<nat>, t: seq<nat>, k: nat)
    requires IsTopological(g, nodes, t) && k < |t|
    ensures Ready(g, nodes, t[..k], t[k])
  {
    FreshAt(t, k);
    assert t[k] in nodes;
  }

  lemma FreshAt(t: seq<nat>, k: nat)
    requires Distinct(t) && k < |t|
    ensures t[k] !in t[..k]
  {
  }

  /** The least order is unique. */
  lemma LeastUnique(g: Graph, nodes: set<nat>, a: seq<nat>, b: seq<nat>)
    requires IsLeastTopological(g, nodes, a) && IsLeastTopological(g, nodes, b)
    ensures a == b
  {
    SameLength(a, b);
    LexAntisymmetric(a, b);
  }

  lemma LexAntisymmetric(a: seq<nat>, b: seq<nat>)
    requires LexLeq(a, b) && LexLeq(b, a)
    ensures a == b
  {
    var k := FirstDifference(a, b);
    LexDecided(a, b, k);
    LexDecided(b, a, k);
    assert a[..|a|] == a && b[..|b|] == b;
  }

  /** The first difference decides the comparison. */
  lemma LexDecided(a: seq<nat>, b: seq<nat>, k: nat)
    requires LexLeq(a, b)
    requires k <= |a| && k <= |b| && a[..k] == b[..k] && (k == |a| || k == |b| || a[k] != b[k])
    ensures k == |a| || (k < |b| && a[k] < b[k])
  {
    if !(a <= b) {
      var l :| 0 <= l < |a| && l < |b| && a[..l] == b[..l] && a[l] < b[l];
      AgreeBefore(a, b, k, l);
    }
  }

  lemma AgreeBefore(a: seq<nat>, b: seq<nat>, k: nat, l: nat)
    requires k <= |a| && k <= |b| && l < |a| && l < |b| && a[..k] == b[..k] && a[..l] == b[..l] && a[l] != b[l]
    requires k == |a| || k == |b| || a[k] != b[k]
    ensures k == l
  {
    PrefixAt(a, b, k, l);
    PrefixAt(a, b, l, k);
  }

  lemma PrefixAt(a: seq<nat>, b: seq<nat>, k: nat, i: nat)
    requires k <= |a| && k <= |b| && a[..k] == b[..k]
    ensures i < k ==> a[i] == b[i]
  {
    if i < k {
      assert a[..k][i] == b[..k][i];
    }
  }

  lemma SameLength(a: seq<nat>, b: seq<nat>)
    requires Distinct(a) && Distinct(b) && forall v :: v in a <==> v in b
    ensures |a| == |b|
  {
    DistinctSize(a);
    DistinctSize(b);
    assert Elements(a) == Elements(b);
  }

  lemma {:induction false} DistinctSize(a: seq<nat>)
    requires Distinct(a)
    ensures |Elements(a)| == |a|
    decreases |a|
  {
    if a != [] {
      var last := |a| - 1;
      DistinctSize(a[..last]);
      FreshAt(a, last);
      assert a == a[..last] + [a[last]];
      assert Elements(a) == Elements(a[..last]) + {a[last]};
    }
  }

  // ----- a complete order exists exactly when there is no cycle

  ghost function Position(order: seq<nat>, v: nat): (k: nat)
    requires v in order
    ensures k < |order| && order[k] == v
  {
    var k :| 0 <= k < |order| && order[k] == v;
    k
  }

  lemma {:induction false} PathDescends(g: Graph, order: seq<nat>, p: seq<nat>)
    requires WellFormed(g) && IsTopological(g, Below(|g|), order) && IsPath(g, p)
    ensures p[0] in order && p[|p| - 1] in order
    ensures |p| >= 2 ==> Position(order, p[|p| - 1]) < Position(order, p[0])
    decreases |p|
  {
    PathInRange(g, p);
    assert p[0] in Below(|g|) && p[|p| - 1] in Below(|g|);
    if |p| >= 2 {
      assert Edge(g, p[0], p[0 + 1]);
      SubPath(g, p, 1, |p| - 1);
      var rest := p[1..|p| - 1 + 1];
      PathDescends(g, order, rest);
      var k := Position(order, p[0]);
      assert p[1] in g[order[k]];
      assert p[1] in order[..k];
      var i :| 0 <= i < k && order[..k][i] == p[1];
      assert order[i] == p[1] && rest[0] == p[1];
      assert Position(order, p[1]) == i;
    }
  }

  lemma TopologicalAcyclic(g: Graph, order: seq<nat>)
    requires WellFormed(g) && IsTopological(g, Below(|g|), order)
    ensures Acyclic(g)
  {
    forall p
      ensures !IsCycle(g, p)
    {
      if IsPath(g, p) {
        PathDescends(g, order, p);
      }
    }
  }

  /** When nothing is ready, whatever is left runs in circles. */
  lemma StuckIsCyclic(g: Graph, order: seq<nat>, v: nat)
    requires WellFormed(g) && v < |g| && v !in order
    requires forall u: nat :: !Ready(g, Below(|g|), order, u)
    ensures !Acyclic(g)
  {
    var rest := set u: nat | u in Below(|g|) && u !in order;
    assert v in rest;
    forall u | u in rest
      ensures HasSuccessorIn(g, rest, u)
    {
      assert !Ready(g, Below(|g|), order, u);
      var d :| d in g[u] && d !in order;
      assert d in rest && Edge(g, u, d);
    }
    TrappedCycle(g, rest);
  }

  // ----- Kahn's algorithm

  ghost function Pending(g: Graph, done: seq<nat>, v: nat): set<nat>
    requires v < |g|
  {
    set d | d in g[v] && d !in done
  }

  /** `dependents` lists every edge of `g` backwards. */
  ghost predicate Transposed(g: Graph, dependents: seq<seq<nat>>) {
    && |dependents| == |g|
    && (forall d :: 0 <= d < |g| ==> Distinct(dependents[d]))
    && (forall d: nat, j: nat :: d < |g| ==> (j in dependents[d] <==> Edge(g, j, d)))
  }

  method BuildDependents(g: Graph) returns (dependents: seq<seq<nat>>)
    requires WellFormed(g) && NoRepeatedEdges(g)
    ensures Transposed(g, dependents)
  {
    dependents := seq(|g|, _ => []);
    assert forall d: nat, i: nat :: d < |g| ==> i !in dependents[d];
    for j := 0 to |g|
      invariant |dependents| == |g|
      invariant forall d :: 0 <= d < |g| ==> Distinct(dependents[d])
      invariant forall d: nat, i: nat :: d < |g| ==> (i in dependents[d] <==> i < j && Edge(g, i, d))
    {
      for k := 0 to |g[j]|
        invariant |dependents| == |g|
        invariant forall d :: 0 <= d < |g| ==> Distinct(dependents[d])
        invariant forall d: nat, i: nat :: d < |g| ==>
          (i in dependents[d] <==> (i < j && Edge(g, i, d)) || (i == j && d in g[j][..k]))
      {
        var d := g[j][k];
        FreshAt(g[j], k);
        assert j !in dependents[d];
        assert g[j][..k + 1] == g[j][..k] + [d];
        dependents := dependents[d := dependents[d] + [j]];
      }
      assert g[j][..|g[j]|] == g[j];
    }
  }

  /** In-degrees count the dependencies still to run; the heap holds exactly the ready nodes. */
  ghost predicate Draining(g: Graph, indegree: seq<nat>, heap: set<nat>, order: seq<nat>) {
    && |indegree| == |g|
    && (forall d :: 0 <= d < |g| ==> indegree[d] == |Pending(g, order, d)|)
    && (forall v: nat :: v in heap <==> Ready(g, Below(|g|), order, v))
    && Greedy(g, Below(|g|), order)
  }

  /** While the dependents of `i` are being released, those from `k` on still count it. */
  ghost predicate Releasing(g: Graph, out: seq<nat>, k: nat, i: nat, indegree: seq<nat>, heap: set<nat>,
                            order: seq<nat>)
    requires k <= |out|
  {
    && |indegree| == |g|
    && (forall d :: 0 <= d < |g| ==>
          indegree[d] == |Pending(g, order + [i], d)| + if d in out[k..] then 1 else 0)
    && (forall v: nat :: v in heap <==> v !in out[k..] && Ready(g, Below(|g|), order + [i], v))
  }

  lemma InitialDraining(g: Graph, indegree: seq<nat>, heap: set<nat>)
    requires NoRepeatedEdges(g)
    requires |indegree| == |g| && forall d :: 0 <= d < |g| ==> indegree[d] == |g[d]|
    requires forall v: nat :: v in heap <==> v < |g| && indegree[v] == 0
    ensures Draining(g, indegree, heap, [])
  {
    forall d: nat | d < |g|
      ensures |g[d]| == |Pending(g, [], d)|
    {
      DistinctSize(g[d]);
      assert Pending(g, [], d) == Elements(g[d]);
    }
    forall v: nat
      ensures v in heap <==> Ready(g, Below(|g|), [], v)
    {
      if v < |g| && g[v] != [] {
        assert g[v][0] in g[v];
      }
    }
  }

  lemma RunOne(g: Graph, order: seq<nat>, i: nat, d: nat)
    requires d < |g| && i !in order
    ensures |Pending(g, order, d)| == |Pending(g, order + [i], d)| + if i in g[d] then 1 else 0
  {
    if i in g[d] {
      assert Pending(g, order, d) == Pending(g, order + [i], d) + {i};
    } else {
      assert Pending(g, order, d) == Pending(g, order + [i], d);
    }
  }

  lemma ReadyAfter(g: Graph, order: seq<nat>, i: nat, v: nat)
    requires i !in order
    ensures v != i && Ready(g, Below(|g|), order, v) ==> i !in g[v] && Ready(g, Below(|g|), order + [i], v)
    ensures Ready(g, Below(|g|), order + [i], v) && i !in g[v] ==> v != i && Ready(g, Below(|g|), order, v)
  {
  }

  lemma BeginDegrees(g: Graph, out: seq<nat>, i: nat, indegree: seq<nat>, heap: set<nat>, order: seq<nat>)
    requires Draining(g, indegree, heap, order) && i !in order
    requires forall j: nat :: j in out <==> Edge(g, j, i)
    ensures forall d :: 0 <= d < |g| ==>
              indegree[d] == |Pending(g, order + [i], d)| + if d in out then 1 else 0
  {
    hide Pending, Greedy, Ready;
    forall d: nat | d < |g|
      ensures indegree[d] == |Pending(g, order + [i], d)| + if d in out then 1 else 0
    {
      RunOne(g, order, i, d);
    }
  }

  lemma BeginHeap(g: Graph, out: seq<nat>, i: nat, indegree: seq<nat>, heap: set<nat>, order: seq<nat>)
    requires Draining(g, indegree, heap, order) && i !in order
    requires forall j: nat :: j in out <==> Edge(g, j, i)
    ensures forall v: nat :: v in heap - {i} <==> v !in out && Ready(g, Below(|g|), order + [i], v)
  {
    hide Pending, Greedy;
    forall v: nat
      ensures v in heap - {i} <==> v !in out && Ready(g, Below(|g|), order + [i], v)
    {
      ReadyAfter(g, order, i, v);
    }
  }

  lemma BeginRelease(g: Graph, dependents: seq<seq<nat>>, i: nat, indegree: seq<nat>, heap: set<nat>, order: seq<nat>)
    requires Transposed(g, dependents) && Draining(g, indegree, heap, order)
    requires i in heap && forall v :: v in heap ==> i <= v
    ensures i < |g| == |dependents| && i !in order
    ensures Releasing(g, dependents[i], 0, i, indegree, heap - {i}, order)
    ensures Greedy(g, Below(|g|), order) && Greedy(g, Below(|g|), order + [i])
  {
    hide Pending, Greedy;
    assert Ready(g, Below(|g|), order, i);
    assert dependents[i][0..] == dependents[i];
    BeginDegrees(g, dependents[i], i, indegree, heap, order);
    BeginHeap(g, dependents[i], i, indegree, heap, order);
    GreedyExtend(g, Below(|g|), order, i);
  }

  lemma GreedyExtend(g: Graph, nodes: set<nat>, order: seq<nat>, i: nat)
    requires Greedy(g, nodes, order) && Ready(g, nodes, order, i)
    requires forall v: nat :: Ready(g, nodes, order, v) ==> i <= v
    ensures Greedy(g, nodes, order + [i])
  {
    hide Ready;
    var all := order + [i];
    forall k | 0 <= k < |all|
      ensures Ready(g, nodes, all[..k], all[k])
      ensures forall v: nat :: Ready(g, nodes, all[..k], v) ==> all[k] <= v
    {
      assert all[..k] == order[..k];
      if k == |order| {
        assert order[..k] == order;
      }
    }
  }

  /** A node waiting for `i` has not run. */
  lemma DependentWaits(g: Graph, order: seq<nat>, i: nat, d: nat)
    requires Greedy(g, Below(|g|), order) && Ready(g, Below(|g|), order, i)
    requires d < |g| && i in g[d]
    ensures d !in order + [i]
  {
    forall k | 0 <= k < |order|
      ensures order[k] != d
    {
      assert Ready(g, Below(|g|), order[..k], order[k]);
      assert i !in order[..k];
    }
  }

  lemma ReleaseOne(g: Graph, out: seq<nat>, k: nat, i: nat, indegree: seq<nat>, heap: set<nat>, order: seq<nat>)
    requires k < |out| && Distinct(out) && Releasing(g, out, k, i, indegree, heap, order)
    requires forall d :: d in out ==> Edge(g, d, i)
    requires Greedy(g, Below(|g|), order) && Ready(g, Below(|g|), order, i)
    ensures out[k] < |g| == |indegree| && indegree[out[k]] > 0
    ensures var left := indegree[out[k]] - 1;
            Releasing(g, out, k + 1, i, indegree[out[k] := left], if left == 0 then heap + {out[k]} else heap, order)
  {
    hide Greedy, Ready, Pending;
    var d := out[k];
    assert Edge(g, d, i);
    SplitOut(out, k);
    DependentWaits(g, order, i, d);
    ReadyWhenNonePending(g, order + [i], d);
  }

  lemma SplitOut(out: seq<nat>, k: nat)
    requires k < |out| && Distinct(out)
    ensures forall v :: v in out[k..] <==> v in out[k + 1..] || v == out[k]
    ensures out[k] !in out[k + 1..]
  {
    assert out[k..] == [out[k]] + out[k + 1..];
  }

  lemma ReadyWhenNonePending(g: Graph, done: seq<nat>, d: nat)
    requires d < |g| && d !in done
    ensures Ready(g, Below(|g|), done, d) <==> |Pending(g, done, d)| == 0
  {
    if Ready(g, Below(|g|), done, d) {
      assert Pending(g, done, d) == {};
    } else {
      var x :| x in g[d] && x !in done;
      assert x in Pending(g, done, d);
    }
  }

  lemma EndRelease(g: Graph, out: seq<nat>, i: nat, indegree: seq<nat>, heap: set<nat>, order: seq<nat>)
    requires Releasing(g, out, |out|, i, indegree, heap, order) && Greedy(g, Below(|g|), order + [i])
    ensures Draining(g, indegree, heap, order + [i])
  {
    assert out[|out|..] == [];
  }

  /** The heap's `pop`: removes the smallest element. */
  method PopMin(heap: set<nat>) returns (least: nat, rest: set<nat>)
    requires heap != {}
    ensures least in heap && (forall v :: v in heap ==> least <= v) && rest == heap - {least}
  {
    least :| least in heap;
    var seen := {least};
    while seen != heap
      invariant seen <= heap && least in seen && forall v :: v in seen ==> least <= v
      decreases |heap - seen|
    {
      var v :| v in heap - seen;
      SmallerRest(heap, seen, v);
      seen := seen + {v};
      if v < least {
        least := v;
      }
    }
    rest := heap - {least};
  }

  lemma SmallerRest(heap: set<nat>, seen: set<nat>, v: nat)
    requires v in heap - seen
    ensures |heap - (seen + {v})| < |heap - seen|
  {
    assert heap - seen == (heap - (seen + {v})) + {v};
  }

  /** Kahn's loop.  It schedules every node exactly when the graph is acyclic, no in-degree
      underflows, and the result is the least topological order. */
  method KahnTopoOrder(g: Graph, dependents: seq<seq<nat>>) returns (order: seq<nat>)
    requires WellFormed(g) && NoRepeatedEdges(g) && Transposed(g, dependents)
    ensures Greedy(g, Below(|g|), order)
    ensures |order| == |g| <==> Acyclic(g)
    ensures Acyclic(g) ==> IsLeastTopological(g, Below(|g|), order)
  {
    hide WellFormed, NoRepeatedEdges, Transposed, Draining, Releasing, Greedy, Acyclic, IsLeastTopological;
    var n := |g|;
    var indegree := new nat[n](i requires 0 <= i < n => |g[i]|);
    var heap: set<nat> := {};
    for i := 0 to n
      invariant forall v: nat :: v in heap <==> v < i && indegree[v] == 0
    {
      if indegree[i] == 0 {
        heap := heap + {i};
      }
    }
    order := [];
    InitialDraining(g, indegree[..], heap);
    while heap != {}
      invariant Draining(g, indegree[..], heap, order)
      decreases n - |order|
    {
      var i, rest := PopMin(heap);
      BeginRelease(g, dependents, i, indegree[..], heap, order);
      heap := rest;
      heap := Release(g, dependents, i, indegree, heap, order);
      order := order + [i];
      NotTooLong(g, indegree[..], heap, order);
    }
    Drained(g, indegree[..], order);
  }

  method Release(g: Graph, dependents: seq<seq<nat>>, i: nat, indegree: array<nat>, heap0: set<nat>, order: seq<nat>)
    returns (heap: set<nat>)
    requires Transposed(g, dependents) && i < |g| == |dependents| == indegree.Length
    requires Releasing(g, dependents[i], 0, i, indegree[..], heap0, order)
    requires Greedy(g, Below(|g|), order) && Greedy(g, Below(|g|), order + [i])
    modifies indegree
    ensures Draining(g, indegree[..], heap, order + [i])
  {
    hide Transposed, Draining, Releasing, Greedy;
    heap := heap0;
    var out := dependents[i];
    OutEdges(g, dependents, i, order);
    for k := 0 to |out|
      invariant Releasing(g, out, k, i, indegree[..], heap, order)
    {
      var d := out[k];
      ReleaseOne(g, out, k, i, indegree[..], heap, order);
      indegree[d] := indegree[d] - 1;
      if indegree[d] == 0 {
        heap := heap + {d};
      }
    }
    EndRelease(g, out, i, indegree[..], heap, order);
  }

  lemma OutEdges(g: Graph, dependents: seq<seq<nat>>, i: nat, order: seq<nat>)
    requires Transposed(g, dependents) && i < |g| && Greedy(g, Below(|g|), order + [i])
    ensures Distinct(dependents[i]) && forall d :: d in dependents[i] ==> Edge(g, d, i)
    ensures Ready(g, Below(|g|), order, i)
  {
    var all := order + [i];
    assert all[..|order|] == order && all[|order|] == i;
  }

  lemma NotTooLong(g: Graph, indegree: seq<nat>, heap: set<nat>, order: seq<nat>)
    requires Draining(g, indegree, heap, order)
    ensures |order| <= |g|
  {
    GreedyDistinct(g, Below(|g|), order);
    BelowSize(|g|);
    DistinctFits(order, Below(|g|));
  }

  lemma {:induction false} FullIsAll(order: seq<nat>, n: nat)
    requires Distinct(order) && |order| == n && forall k :: 0 <= k < n ==> order[k] < n
    ensures forall v: nat :: v < n ==> v in order
  {
    forall v: nat | v < n
      ensures v in order
    {
      if v !in order {
        BelowSize(n);
        DistinctFits(order, Below(n) - {v});
      }
    }
  }

  lemma SomeoneLeft(order: seq<nat>, n: nat) returns (v: nat)
    requires |order| < n
    ensures v < n && v !in order
  {
    BelowSize(n);
    ElementsSize(order);
    if Below(n) <= Elements(order) {
      SubsetSize(Below(n), Elements(order));
      assert false;
    }
    v :| v in Below(n) && v !in Elements(order);
  }

  lemma Drained(g: Graph, indegree: seq<nat>, order: seq<nat>)
    requires WellFormed(g) && Draining(g, indegree, {}, order)
    ensures Greedy(g, Below(|g|), order)
    ensures |order| == |g| <==> Acyclic(g)
    ensures Acyclic(g) ==> IsLeastTopological(g, Below(|g|), order)
  {
    hide Acyclic, IsTopological, IsLeastTopological, WellFormed;
    NotTooLong(g, indegree, {}, order);
    GreedyDistinct(g, Below(|g|), order);
    if |order| == |g| {
      FullIsAll(order, |g|);
      GreedyTopological(g, Below(|g|), order);
      TopologicalAcyclic(g, order);
      GreedyLeast(g, Below(|g|), order);
    } else {
      var v := SomeoneLeft(order, |g|);
      StuckIsCyclic(g, order, v);
    }
  }

  // ----- waves

  ghost predicate StartsAt(g: Graph, p: seq<nat>, v: nat) {
    IsPath(g, p) && p[0] == v
  }

  /** The longest chain of dependencies hanging off `v` has exactly `depth` edges. */
  ghost predicate LongestChain(g: Graph, v: nat, depth: nat) {
    && (exists p :: StartsAt(g, p, v) && |p| == depth + 1)
    && (forall p :: StartsAt(g, p, v) ==> |p| <= depth + 1)
  }

  lemma LongestChainUnique(g: Graph, v: nat, a: nat, b: nat)
    requires LongestChain(g, v, a) && LongestChain(g, v, b)
    ensures a == b
  {
    var p :| StartsAt(g, p, v) && |p| == a + 1;
    var q :| StartsAt(g, q, v) && |q| == b + 1;
  }

  /** One more than the largest wave among `deps`, or zero when there are none. */
  function MaxPlusOne(wave: seq<nat>, deps: seq<nat>): (m: nat)
    requires forall k :: 0 <= k < |deps| ==> deps[k] < |wave|
    ensures forall d :: d in deps ==> wave[d] + 1 <= m
    ensures deps == [] ==> m == 0
    ensures deps != [] ==> exists d :: d in deps && m == wave[d] + 1
  {
    if deps == [] then 0
    else
      var rest := MaxPlusOne(wave, deps[1..]);
      assert deps[0] in deps;
      assert forall d :: d in deps <==> d == deps[0] || d in deps[1..];
      if wave[deps[0]] + 1 >= rest then wave[deps[0]] + 1 else rest
  }

  lemma ChainStep(g: Graph, v: nat, wave: seq<nat>)
    requires WellFormed(g) && v < |g| == |wave|
    requires forall d :: d in g[v] ==> LongestChain(g, d, wave[d])
    ensures LongestChain(g, v, MaxPlusOne(wave, g[v]))
  {
    var m := MaxPlusOne(wave, g[v]);
    ChainExists(g, v, wave, m);
    forall p | StartsAt(g, p, v)
      ensures |p| <= m + 1
    {
      ChainBound(g, v, wave, p);
    }
  }

  lemma ChainPush(g: Graph, v: nat, d: nat, q: seq<nat>)
    requires Edge(g, v, d) && StartsAt(g, q, d)
    ensures StartsAt(g, [v, d] + q[1..], v) && |[v, d] + q[1..]| == |q| + 1
  {
    assert IsPath(g, [v, d]);
    PathAppend(g, [v, d], q);
  }

  lemma ChainExists(g: Graph, v: nat, wave: seq<nat>, m: nat)
    requires v < |g| == |wave| && (forall k :: 0 <= k < |g[v]| ==> g[v][k] < |g|)
    requires forall d :: d in g[v] ==> LongestChain(g, d, wave[d])
    requires m == MaxPlusOne(wave, g[v])
    ensures exists p :: StartsAt(g, p, v) && |p| == m + 1
  {
    hide MaxPlusOne;
    if g[v] == [] {
      assert StartsAt(g, [v], v);
    } else {
      var d :| d in g[v] && m == wave[d] + 1;
      assert LongestChain(g, d, wave[d]);
      var q :| StartsAt(g, q, d) && |q| == wave[d] + 1;
      ChainPush(g, v, d, q);
    }
  }

  lemma ChainBound(g: Graph, v: nat, wave: seq<nat>, p: seq<nat>)
    requires v < |g| == |wave| && (forall k :: 0 <= k < |g[v]| ==> g[v][k] < |g|)
    requires forall d :: d in g[v] ==> LongestChain(g, d, wave[d])
    requires StartsAt(g, p, v)
    ensures |p| <= MaxPlusOne(wave, g[v]) + 1
  {
    if |p| > 1 {
      var d, rest := p[1], p[1..];
      assert Edge(g, p[0], p[0 + 1]);
      forall i | 0 <= i < |rest| - 1
        ensures Edge(g, rest[i], rest[i + 1])
      {
        assert Edge(g, p[i + 1], p[i + 1 + 1]);
      }
      assert StartsAt(g, rest, d);
      assert LongestChain(g, d, wave[d]);
    }
  }

  /** One pass over a topological order finds every node's longest chain. */
  method ComputeWaves(g: Graph, order: seq<nat>) returns (wave: seq<nat>)
    requires WellFormed(g) && IsTopological(g, Below(|g|), order)
    ensures |wave| == |g| && forall v :: 0 <= v < |g| ==> LongestChain(g, v, wave[v])
  {
    hide WellFormed, IsTopological, LongestChain;
    var waves := new nat[|g|](_ => 0);
    for k := 0 to |order|
      invariant forall v :: v in order[..k] && v < |g| ==> LongestChain(g, v, waves[v])
    {
      var i := order[k];
      NextNode(g, order, k);
      ChainStep(g, i, waves[..]);
      waves[i] := MaxPlusOne(waves[..], g[i]);
      assert order[..k + 1] == order[..k] + [i];
    }
    wave := waves[..];
    assert order[..|order|] == order;
    AllOrdered(g, order);
  }

  lemma NextNode(g: Graph, order: seq<nat>, k: nat)
    requires WellFormed(g) && IsTopological(g, Below(|g|), order) && k < |order|
    ensures order[k] < |g| && order[k] !in order[..k]
    ensures forall d :: d in g[order[k]] ==> d < |g| && d in order[..k]
    ensures forall j :: 0 <= j < |g[order[k]]| ==> g[order[k]][j] < |g|
  {
    FreshAt(order, k);
  }

  lemma AllOrdered(g: Graph, order: seq<nat>)
    requires IsTopological(g, Below(|g|), order)
    ensures forall v: nat :: v < |g| ==> v in order
  {
    assert forall v: nat :: v < |g| ==> v in Below(|g|);
  }
}
