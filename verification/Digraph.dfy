/** Finite directed graphs as adjacency lists, and the facts about walks that the
    `needs` graph proofs share.  Node `u` depends on every node listed in `g[u]`. */
module Digraph {

  type Graph = seq<seq<nat>>

  ghost predicate WellFormed(g: Graph) {
    forall u, k :: 0 <= u < |g| && 0 <= k < |g[u]| ==> g[u][k] < |g|
  }

  predicate Edge(g: Graph, u: nat, v: nat) {
    u < |g| && v in g[u]
  }

  /** A nonempty walk along edges. */
  ghost predicate IsPath(g: Graph, p: seq<nat>) {
    && |p| > 0
    && p[0] < |g|
    && forall i :: 0 <= i < |p| - 1 ==> Edge(g, p[i], p[i + 1])
  }

  ghost predicate PathBetween(g: Graph, p: seq<nat>, u: nat, v: nat) {
    IsPath(g, p) && p[0] == u && p[|p| - 1] == v
  }

  /** Reflexive, transitive reachability. */
  ghost predicate Reach(g: Graph, u: nat, v: nat) {
    exists p :: PathBetween(g, p, u, v)
  }

  ghost predicate SameComponent(g: Graph, u: nat, v: nat) {
    Reach(g, u, v) && Reach(g, v, u)
  }

  /** A strongly connected component: closed under mutual reachability, and maximal. */
  ghost predicate IsComponent(g: Graph, c: seq<nat>) {
    && |c| > 0
    && (forall i :: 0 <= i < |c| ==> c[i] < |g|)
    && (forall i, v: nat :: 0 <= i < |c| ==> (v in c <==> SameComponent(g, c[i], v)))
  }

  /** A directed cycle, given by a walk with at least one edge that returns to its start.
      A self-edge is the two-element walk `[u, u]`. */
  ghost predicate IsCycle(g: Graph, p: seq<nat>) {
    IsPath(g, p) && |p| >= 2 && p[0] == p[|p| - 1]
  }

  ghost predicate Acyclic(g: Graph) {
    forall p :: !IsCycle(g, p)
  }

  ghost predicate Distinct<T>(s: seq<T>) {
    forall i, j :: 0 <= i < j < |s| ==> s[i] != s[j]
  }

  /** Adjacency lists are free of duplicates, as `build_graph` makes them. */
  ghost predicate NoRepeatedEdges(g: Graph) {
    forall v :: 0 <= v < |g| ==> Distinct(g[v])
  }

  function Elements<T>(s: seq<T>): set<T> {
    set v | v in s
  }

  lemma {:induction false} ElementsSize<T>(s: seq<T>)
    ensures |Elements(s)| <= |s|
    decreases |s|
  {
    if s != [] {
      ElementsSize(s[..|s| - 1]);
      assert Elements(s) == Elements(s[..|s| - 1]) + {s[|s| - 1]};
    }
  }

  lemma {:induction false} SubsetSize(a: set<nat>, b: set<nat>)
    requires a <= b
    ensures |a| <= |b|
  {
    if x :| x in a {
      SubsetSize(a - {x}, b - {x});
    }
  }

  lemma ReachSelf(g: Graph, u: nat)
    requires u < |g|
    ensures Reach(g, u, u)
  {
    assert PathBetween(g, [u], u, u);
  }

  lemma ReachEdge(g: Graph, u: nat, v: nat)
    requires Edge(g, u, v)
    ensures Reach(g, u, v)
  {
    assert PathBetween(g, [u, v], u, v);
  }

  lemma PathAppend(g: Graph, p: seq<nat>, q: seq<nat>)
    requires IsPath(g, p) && IsPath(g, q) && p[|p| - 1] == q[0]
    ensures PathBetween(g, p + q[1..], p[0], q[|q| - 1])
    ensures |p + q[1..]| == |p| + |q| - 1
  {
    var r := p + q[1..];
    forall i | 0 <= i < |r| - 1
      ensures Edge(g, r[i], r[i + 1])
    {
      if i < |p| - 1 {
        assert r[i] == p[i] && r[i + 1] == p[i + 1];
      } else {
        assert r[i] == q[i - |p| + 1] && r[i + 1] == q[i - |p| + 2];
      }
    }
  }

  lemma ReachTrans(g: Graph, u: nat, v: nat, w: nat)
    requires Reach(g, u, v) && Reach(g, v, w)
    ensures Reach(g, u, w)
  {
    var p :| PathBetween(g, p, u, v);
    var q :| PathBetween(g, q, v, w);
    PathAppend(g, p, q);
  }

  /** A set closed under edges traps every walk that starts in it. */
  lemma {:induction false} ClosedPath(g: Graph, inside: set<nat>, p: seq<nat>)
    requires IsPath(g, p) && p[0] in inside
    requires forall x, y :: x in inside && Edge(g, x, y) ==> y in inside
    ensures forall i :: 0 <= i < |p| ==> p[i] in inside
    decreases |p|
  {
    if |p| > 1 {
      var front := p[..|p| - 1];
      ClosedPath(g, inside, front);
      assert front[|p| - 2] == p[|p| - 2];
      assert Edge(g, p[|p| - 2], p[|p| - 2 + 1]);
    }
  }

  lemma ClosedReach(g: Graph, inside: set<nat>, u: nat, v: nat)
    requires u in inside && Reach(g, u, v)
    requires forall x, y :: x in inside && Edge(g, x, y) ==> y in inside
    ensures v in inside
  {
    var p :| PathBetween(g, p, u, v);
    ClosedPath(g, inside, p);
  }

  lemma PathInRange(g: Graph, p: seq<nat>)
    requires WellFormed(g) && IsPath(g, p)
    ensures forall i :: 0 <= i < |p| ==> p[i] < |g|
  {
    forall i | 0 <= i < |p|
      ensures p[i] < |g|
    {
      if i > 0 {
        assert Edge(g, p[i - 1], p[i - 1 + 1]);
      }
    }
  }

  lemma SubPath(g: Graph, p: seq<nat>, i: nat, j: nat)
    requires WellFormed(g) && IsPath(g, p) && i <= j < |p|
    ensures PathBetween(g, p[i..j + 1], p[i], p[j])
  {
    PathInRange(g, p);
    var q := p[i..j + 1];
    forall k | 0 <= k < |q| - 1
      ensures Edge(g, q[k], q[k + 1])
    {
      assert Edge(g, p[i + k], p[i + k + 1]);
    }
  }

  /** More nodes than a set has members means a repetition. */
  lemma {:induction false} Pigeonhole(s: seq<nat>, pool: set<nat>) returns (i: nat, j: nat)
    requires |s| > |pool|
    requires forall k :: 0 <= k < |s| ==> s[k] in pool
    ensures i < j < |s| && s[i] == s[j]
    decreases |s|
  {
    var last := |s| - 1;
    if k :| 0 <= k < last && s[k] == s[last] {
      return k, last;
    }
    i, j := Pigeonhole(s[..last], pool - {s[last]});
  }

  lemma {:induction false} DistinctFits(s: seq<nat>, pool: set<nat>)
    requires Distinct(s)
    requires forall k :: 0 <= k < |s| ==> s[k] in pool
    ensures |s| <= |pool|
  {
    if |s| > |pool| {
      var i, j := Pigeonhole(s, pool);
    }
  }

  function Below(n: nat): (s: set<nat>)
    ensures forall v: nat :: v in s <==> v < n
  {
    if n == 0 then {} else Below(n - 1) + {n - 1}
  }

  lemma {:induction false} BelowSize(n: nat)
    ensures |Below(n)| == n
  {
    if n > 0 {
      BelowSize(n - 1);
    }
  }

  ghost predicate HasSuccessorIn(g: Graph, trap: set<nat>, x: nat) {
    exists y :: y in trap && Edge(g, x, y)
  }

  /** Nobody in `trap` runs out of successors inside it. */
  ghost predicate IsTrap(g: Graph, trap: set<nat>) {
    && (forall x :: x in trap ==> x < |g|)
    && (forall x {:trigger HasSuccessorIn(g, trap, x)} :: x in trap ==> HasSuccessorIn(g, trap, x))
  }

  /** A finite set in which everybody has a successor inside the set contains a cycle. */
  lemma TrappedCycle(g: Graph, trap: set<nat>)
    requires WellFormed(g) && trap != {}
    requires IsTrap(g, trap)
    ensures !Acyclic(g)
  {
    var x :| x in trap;
    var p := TrappedWalk(g, trap, x, |trap|);
    var i, j := Pigeonhole(p, trap);
    SubPath(g, p, i, j);
    assert IsCycle(g, p[i..j + 1]);
  }

  lemma {:induction false} TrappedWalk(g: Graph, trap: set<nat>, x: nat, len: nat) returns (p: seq<nat>)
    requires WellFormed(g) && x in trap
    requires IsTrap(g, trap)
    ensures IsPath(g, p) && |p| == len + 1
    ensures forall k :: 0 <= k < |p| ==> p[k] in trap
    decreases len
  {
    if len == 0 {
      return [x];
    }
    var q := TrappedWalk(g, trap, x, len - 1);
    assert HasSuccessorIn(g, trap, q[|q| - 1]);
    var y :| y in trap && Edge(g, q[|q| - 1], y);
    p := q + [y];
    forall i | 0 <= i < |p| - 1
      ensures Edge(g, p[i], p[i + 1])
    {
      if i < |q| - 1 {
        assert Edge(g, q[i], q[i + 1]);
      }
    }
  }
}
