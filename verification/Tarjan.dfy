/** The explicit-stack form of Tarjan's algorithm used by `find_cycles`.

    The proof never speaks of a depth-first tree.  Nodes on the call stack are "open";
    every node on the Tarjan stack reaches some older open node and is reached from every
    older open node, and `low` of an open node bounds from below every edge back into the
    stack that leaves the stack segment it owns. */
module Tarjan {
  import opened Digraph

  datatype Frame = Frame(node: nat, cursor: nat)

  /** A snapshot of the working storage. */
  datatype State = State(
    visited: seq<bool>, index: seq<nat>, low: seq<nat>, onStack: seq<bool>,
    stack: seq<nat>, next: nat, sccs: seq<seq<nat>>, calls: seq<Frame>)

  ghost predicate Open(s: State, v: nat) {
    exists i :: 0 <= i < |s.calls| && s.calls[i].node == v
  }

  ghost function VisitedSet(visited: seq<bool>): set<nat> {
    set v: nat | v < |visited| && visited[v]
  }

  ghost predicate Closed(g: Graph, s: State, v: nat)
    requires |s.visited| == |s.onStack| == |g|
  {
    v < |g| && s.visited[v] && !s.onStack[v]
  }

  ghost predicate InSome(sccs: seq<seq<nat>>, v: nat) {
    exists k :: 0 <= k < |sccs| && v in sccs[k]
  }

  ghost predicate Sized(g: Graph, s: State) {
    && WellFormed(g)
    && |s.visited| == |s.index| == |s.low| == |s.onStack| == |g|
  }

  /** The Tarjan stack lists the nodes flagged `onStack`, in order of discovery. */
  ghost predicate StackOk(g: Graph, s: State)
    requires Sized(g, s)
  {
    && (forall i :: 0 <= i < |s.stack| ==> s.stack[i] < |g| && s.onStack[s.stack[i]])
    && (forall v :: 0 <= v < |g| && s.onStack[v] ==> v in s.stack)
    && (forall i, j :: 0 <= i < j < |s.stack| ==> s.index[s.stack[i]] < s.index[s.stack[j]])
  }

  ghost predicate Shape(g: Graph, s: State) {
    && Sized(g, s)
    && (forall v :: 0 <= v < |g| && s.onStack[v] ==> s.visited[v])
    && (forall v :: 0 <= v < |g| && s.visited[v] ==> s.index[v] < s.next)
    && (forall i :: 0 <= i < |s.calls| ==>
          && s.calls[i].node < |g|
          && s.onStack[s.calls[i].node]
          && s.calls[i].cursor <= |g[s.calls[i].node]|)
    && (forall i, j :: 0 <= i < j < |s.calls| ==>
          s.index[s.calls[i].node] < s.index[s.calls[j].node])
  }

  /** Every edge already examined leads to a visited node. */
  ghost predicate Scanned(g: Graph, s: State)
    requires Shape(g, s)
  {
    && (forall v, w :: 0 <= v < |g| && s.visited[v] && !Open(s, v) && w in g[v] ==> s.visited[w])
    && (forall i, k :: 0 <= i < |s.calls| && 0 <= k < s.calls[i].cursor ==>
          s.visited[g[s.calls[i].node][k]])
  }

  /** Closed nodes are partitioned into finished components and never lead back. */
  ghost predicate Finished(g: Graph, s: State)
    requires Shape(g, s)
  {
    && (forall v: nat, w: nat :: Closed(g, s, v) && w in g[v] ==> Closed(g, s, w))
    && (forall k :: 0 <= k < |s.sccs| ==> IsComponent(g, s.sccs[k]) && Distinct(s.sccs[k]))
    && (forall v: nat :: Closed(g, s, v) <==> InSome(s.sccs, v))
    && (forall k, l, v: nat :: 0 <= k < l < |s.sccs| && v in s.sccs[k] ==> v !in s.sccs[l])
  }

  ghost predicate ReachesOpen(g: Graph, s: State, x: nat)
    requires Shape(g, s) && x < |g|
  {
    exists i :: 0 <= i < |s.calls| && s.index[s.calls[i].node] <= s.index[x] && Reach(g, x, s.calls[i].node)
  }

  ghost predicate Linked(g: Graph, s: State)
    requires Shape(g, s)
  {
    && (forall x {:trigger ReachesOpen(g, s, x)} :: 0 <= x < |g| && s.onStack[x] ==> ReachesOpen(g, s, x))
    && (forall i, x :: 0 <= i < |s.calls| && 0 <= x < |g| && s.onStack[x] && s.index[s.calls[i].node] <= s.index[x] ==>
          Reach(g, s.calls[i].node, x))
  }

  /** `x` lies in the stack segment between open node `i` and the next open node. */
  ghost predicate InSegment(g: Graph, s: State, i: nat, x: nat)
    requires Shape(g, s) && i < |s.calls|
  {
    && x < |g| && s.onStack[x]
    && s.index[s.calls[i].node] <= s.index[x]
    && (i + 1 < |s.calls| ==> s.index[x] < s.index[s.calls[i + 1].node])
  }

  /** An edge of a segment that has been examined: all of them, except that the open node
      itself has examined only those before its cursor. */
  ghost predicate ExaminedEdge(g: Graph, s: State, i: nat, x: nat, w: nat)
    requires Shape(g, s) && i < |s.calls| && x < |g|
  {
    if x == s.calls[i].node then
      exists k :: 0 <= k < s.calls[i].cursor && g[x][k] == w
    else w in g[x]
  }

  ghost predicate LowWitness(g: Graph, s: State, v: nat)
    requires Shape(g, s) && v < |g|
  {
    exists u :: 0 <= u < |g| && s.onStack[u] && s.index[u] == s.low[v] && Reach(g, v, u)
  }

  ghost predicate LowLinks(g: Graph, s: State)
    requires Shape(g, s)
  {
    && (forall i :: 0 <= i < |s.calls| ==> s.low[s.calls[i].node] <= s.index[s.calls[i].node])
    && (forall i {:trigger LowWitness(g, s, s.calls[i].node)} :: 0 <= i < |s.calls| ==>
          LowWitness(g, s, s.calls[i].node))
    && (forall i: nat, x: nat, w: nat ::
          (i < |s.calls| && InSegment(g, s, i, x) && ExaminedEdge(g, s, i, x, w) && w < |g| && s.onStack[w]) ==>
            s.low[s.calls[i].node] <= s.index[w])
  }

  ghost predicate Inv(g: Graph, s: State) {
    && Shape(g, s)
    && StackOk(g, s)
    && s.next == |VisitedSet(s.visited)|
    && Scanned(g, s)
    && Finished(g, s)
    && Linked(g, s)
    && LowLinks(g, s)
  }

  // ----- steps

  /** Discovering `w`: it gets the next number and goes on both stacks. */
  ghost function Discover(s: State, w: nat): State
    requires w < |s.visited| == |s.index| == |s.low| == |s.onStack|
  {
    s.(visited := s.visited[w := true], index := s.index[w := s.next], low := s.low[w := s.next],
       onStack := s.onStack[w := true], stack := s.stack + [w], next := s.next + 1,
       calls := s.calls + [Frame(w, 0)])
  }

  ghost function Advance(s: State): State
    requires s.calls != []
  {
    var top := |s.calls| - 1;
    s.(calls := s.calls[top := Frame(s.calls[top].node, s.calls[top].cursor + 1)])
  }

  lemma VisitedGrows(visited: seq<bool>, w: nat)
    requires w < |visited| && !visited[w]
    ensures |VisitedSet(visited[w := true])| == |VisitedSet(visited)| + 1
  {
    assert VisitedSet(visited[w := true]) == VisitedSet(visited) + {w};
  }

  lemma InitialInv(g: Graph, s: State)
    requires WellFormed(g)
    requires |s.visited| == |s.index| == |s.low| == |s.onStack| == |g|
    requires forall v :: 0 <= v < |g| ==> !s.visited[v] && !s.onStack[v]
    requires s.stack == [] && s.next == 0 && s.sccs == [] && s.calls == []
    ensures Inv(g, s)
  {
    assert VisitedSet(s.visited) == {};
  }

  /** The state after discovering `w`, from scratch or along the next edge of the top frame. */
  ghost function Enter(s: State, w: nat): State
    requires w < |s.visited| == |s.index| == |s.low| == |s.onStack|
  {
    Discover(if s.calls == [] then s else Advance(s), w)
  }

  ghost predicate CanEnter(g: Graph, s: State, w: nat) {
    && Shape(g, s)
    && w < |g| && !s.visited[w]
    && (s.calls != [] ==>
          var top := s.calls[|s.calls| - 1];
          top.cursor < |g[top.node]| && g[top.node][top.cursor] == w)
  }

  lemma EnterShape(g: Graph, s: State, w: nat)
    requires CanEnter(g, s, w)
    ensures Shape(g, Enter(s, w))
  {
  }

  lemma EnterStack(g: Graph, s: State, w: nat)
    requires CanEnter(g, s, w) && StackOk(g, s)
    ensures StackOk(g, Enter(s, w))
  {
    var t := Enter(s, w);
    assert t.stack[|s.stack|] == w;
    forall v | 0 <= v < |g| && t.onStack[v]
      ensures v in t.stack
    {
      assert v == w || v in s.stack;
    }
  }

  lemma EnterKeepsOpen(g: Graph, s: State, w: nat, v: nat)
    requires CanEnter(g, s, w)
    ensures Open(s, v) ==> Open(Enter(s, w), v)
  {
    if Open(s, v) {
      var i :| 0 <= i < |s.calls| && s.calls[i].node == v;
      assert Enter(s, w).calls[i].node == v;
    }
  }

  lemma EnterOpens(g: Graph, s: State, w: nat)
    requires CanEnter(g, s, w)
    ensures Open(Enter(s, w), w)
  {
    assert Enter(s, w).calls[|s.calls|].node == w;
  }

  lemma EnterScanned(g: Graph, s: State, w: nat)
    requires CanEnter(g, s, w) && Scanned(g, s) && Shape(g, Enter(s, w))
    ensures Scanned(g, Enter(s, w))
  {
    hide Open;
    var t := Enter(s, w);
    forall v, x | 0 <= v < |g| && t.visited[v] && !Open(t, v) && x in g[v]
      ensures t.visited[x]
    {
      EnterOpens(g, s, w);
      EnterKeepsOpen(g, s, w, v);
    }
  }

  lemma SameClosedFinished(g: Graph, s: State, t: State)
    requires Shape(g, s) && Finished(g, s) && Shape(g, t)
    requires t.sccs == s.sccs
    requires forall v: nat :: v < |g| ==> (Closed(g, t, v) <==> Closed(g, s, v))
    ensures Finished(g, t)
  {
  }

  lemma EnterFinished(g: Graph, s: State, w: nat)
    requires CanEnter(g, s, w) && Finished(g, s) && Shape(g, Enter(s, w))
    ensures Finished(g, Enter(s, w))
  {
    SameClosedFinished(g, s, Enter(s, w));
  }

  lemma EnterReachesOpen(g: Graph, s: State, w: nat, x: nat)
    requires CanEnter(g, s, w) && Linked(g, s) && Shape(g, Enter(s, w))
    requires x < |g| && Enter(s, w).onStack[x]
    ensures ReachesOpen(g, Enter(s, w), x)
  {
    hide Reach;
    var t := Enter(s, w);
    if x == w {
      ReachSelf(g, w);
      assert t.calls[|t.calls| - 1].node == w;
    } else {
      assert ReachesOpen(g, s, x);
      var i :| 0 <= i < |s.calls| && s.index[s.calls[i].node] <= s.index[x] && Reach(g, x, s.calls[i].node);
      assert t.calls[i].node == s.calls[i].node;
    }
  }

  lemma EnterReached(g: Graph, s: State, w: nat, i: nat, x: nat)
    requires CanEnter(g, s, w) && Linked(g, s) && Shape(g, Enter(s, w))
    requires x < |g| && Enter(s, w).onStack[x] && i < |Enter(s, w).calls|
    requires Enter(s, w).index[Enter(s, w).calls[i].node] <= Enter(s, w).index[x]
    ensures Reach(g, Enter(s, w).calls[i].node, x)
  {
    hide Reach;
    if i == |s.calls| {
      ReachSelf(g, w);
    } else if x == w {
      var v, top := s.calls[i].node, s.calls[|s.calls| - 1].node;
      assert s.index[v] <= s.index[top];
      assert Reach(g, v, top);
      ReachEdge(g, top, w);
      ReachTrans(g, v, top, w);
    }
  }

  lemma EnterLinked(g: Graph, s: State, w: nat)
    requires CanEnter(g, s, w) && Linked(g, s) && Shape(g, Enter(s, w))
    ensures Linked(g, Enter(s, w))
  {
    var t := Enter(s, w);
    forall x | 0 <= x < |g| && t.onStack[x]
      ensures ReachesOpen(g, t, x)
    {
      EnterReachesOpen(g, s, w, x);
    }
    forall i, x | 0 <= i < |t.calls| && 0 <= x < |g| && t.onStack[x] && t.index[t.calls[i].node] <= t.index[x]
      ensures Reach(g, t.calls[i].node, x)
    {
      EnterReached(g, s, w, i, x);
    }
  }

  lemma EnterWitness(g: Graph, s: State, w: nat, i: nat)
    requires CanEnter(g, s, w) && LowLinks(g, s) && Shape(g, Enter(s, w))
    requires i <= |s.calls|
    ensures LowWitness(g, Enter(s, w), Enter(s, w).calls[i].node)
  {
    hide Reach;
    var t := Enter(s, w);
    if i == |s.calls| {
      ReachSelf(g, w);
      assert t.onStack[w];
    } else {
      var v := s.calls[i].node;
      assert LowWitness(g, s, v);
      var u :| 0 <= u < |g| && s.onStack[u] && s.index[u] == s.low[v] && Reach(g, v, u);
      assert t.onStack[u];
    }
  }

  lemma EnterBound(g: Graph, s: State, w: nat, i: nat, x: nat, y: nat)
    requires CanEnter(g, s, w) && LowLinks(g, s) && Shape(g, Enter(s, w))
    requires i <= |s.calls| && InSegment(g, Enter(s, w), i, x) && ExaminedEdge(g, Enter(s, w), i, x, y)
    requires y < |g| && Enter(s, w).onStack[y]
    ensures Enter(s, w).low[Enter(s, w).calls[i].node] <= Enter(s, w).index[y]
  {
    hide Reach, LowWitness;
    if i < |s.calls| {
      assert x != w;
      if y == w {
        assert s.low[s.calls[i].node] <= s.index[s.calls[i].node];
      } else {
        assert InSegment(g, s, i, x);
        assert ExaminedEdge(g, s, i, x, y);
      }
    }
  }

  lemma EnterLow(g: Graph, s: State, w: nat)
    requires CanEnter(g, s, w) && LowLinks(g, s) && Shape(g, Enter(s, w))
    ensures LowLinks(g, Enter(s, w))
  {
    hide Reach, LowWitness;
    var t := Enter(s, w);
    forall i | 0 <= i < |t.calls|
      ensures LowWitness(g, t, t.calls[i].node)
    {
      EnterWitness(g, s, w, i);
    }
    forall i: nat, x: nat, y: nat |
      i < |t.calls| && InSegment(g, t, i, x) && ExaminedEdge(g, t, i, x, y) && y < |g| && t.onStack[y]
      ensures t.low[t.calls[i].node] <= t.index[y]
    {
      EnterBound(g, s, w, i, x, y);
    }
  }

  lemma EnterInv(g: Graph, s: State, w: nat)
    requires CanEnter(g, s, w) && Inv(g, s)
    ensures Inv(g, Enter(s, w))
  {
    VisitedGrows(s.visited, w);
    EnterShape(g, s, w);
    EnterStack(g, s, w);
    EnterScanned(g, s, w);
    EnterFinished(g, s, w);
    EnterLinked(g, s, w);
    EnterLow(g, s, w);
  }

  // ----- an edge to a node seen before

  /** The top frame examines its next edge, which leads to a visited node `w`; the edge
      counts towards `low` only when `w` is still on the stack. */
  ghost function Relax(g: Graph, s: State): State
    requires Sized(g, s) && CanRelax(g, s)
  {
    var top := s.calls[|s.calls| - 1];
    var w := g[top.node][top.cursor];
    var low := if s.onStack[w] then s.low[top.node := Min(s.low[top.node], s.index[w])] else s.low;
    Advance(s).(low := low)
  }

  function Min(a: nat, b: nat): nat {
    if a <= b then a else b
  }

  ghost predicate CanRelax(g: Graph, s: State)
    requires Sized(g, s)
  {
    && s.calls != []
    && var top := s.calls[|s.calls| - 1];
    && top.node < |g|
    && top.cursor < |g[top.node]|
    && g[top.node][top.cursor] < |g|
    && s.visited[g[top.node][top.cursor]]
  }

  lemma RelaxSameOpen(g: Graph, s: State, v: nat)
    requires Sized(g, s) && CanRelax(g, s)
    ensures Open(Relax(g, s), v) == Open(s, v)
  {
    var t := Relax(g, s);
    assert forall i :: 0 <= i < |s.calls| ==> t.calls[i].node == s.calls[i].node;
  }

  lemma RelaxShape(g: Graph, s: State)
    requires Shape(g, s) && CanRelax(g, s)
    ensures Shape(g, Relax(g, s))
  {
  }

  lemma RelaxScanned(g: Graph, s: State)
    requires Shape(g, s) && CanRelax(g, s) && Scanned(g, s) && Shape(g, Relax(g, s))
    ensures Scanned(g, Relax(g, s))
  {
    hide Open;
    forall v: nat {
      RelaxSameOpen(g, s, v);
    }
  }

  lemma RelaxLinked(g: Graph, s: State)
    requires Shape(g, s) && CanRelax(g, s) && Linked(g, s) && Shape(g, Relax(g, s))
    ensures Linked(g, Relax(g, s))
  {
    hide Reach;
    var t := Relax(g, s);
    assert forall i :: 0 <= i < |s.calls| ==> t.calls[i].node == s.calls[i].node;
    forall x | 0 <= x < |g| && t.onStack[x]
      ensures ReachesOpen(g, t, x)
    {
      assert ReachesOpen(g, s, x);
    }
  }

  lemma RelaxWitness(g: Graph, s: State, i: nat)
    requires Shape(g, s) && CanRelax(g, s) && LowLinks(g, s) && Shape(g, Relax(g, s))
    requires i < |s.calls|
    ensures LowWitness(g, Relax(g, s), Relax(g, s).calls[i].node)
  {
    hide Reach;
    var t := Relax(g, s);
    var v := s.calls[i].node;
    assert LowWitness(g, s, v);
    if t.low[v] == s.low[v] {
      var u :| 0 <= u < |g| && s.onStack[u] && s.index[u] == s.low[v] && Reach(g, v, u);
      assert t.onStack[u];
    } else {
      var top := s.calls[|s.calls| - 1];
      var w := g[v][top.cursor];
      assert v == top.node;
      ReachEdge(g, v, w);
      assert t.onStack[w];
    }
  }

  lemma RelaxLow(g: Graph, s: State)
    requires Shape(g, s) && CanRelax(g, s) && LowLinks(g, s) && Shape(g, Relax(g, s))
    ensures LowLinks(g, Relax(g, s))
  {
    hide Reach, LowWitness;
    var t := Relax(g, s);
    var last := |s.calls| - 1;
    assert forall i :: 0 <= i < |s.calls| ==> t.calls[i].node == s.calls[i].node;
    forall i | 0 <= i < |t.calls|
      ensures LowWitness(g, t, t.calls[i].node)
    {
      RelaxWitness(g, s, i);
    }
    forall i: nat, x: nat, y: nat |
      i < |t.calls| && InSegment(g, t, i, x) && ExaminedEdge(g, t, i, x, y) && y < |g| && t.onStack[y]
      ensures t.low[t.calls[i].node] <= t.index[y]
    {
      assert InSegment(g, s, i, x);
      if i == last && x == s.calls[last].node && y == g[x][s.calls[last].cursor] {
      } else {
        assert ExaminedEdge(g, s, i, x, y);
      }
    }
  }

  lemma RelaxInv(g: Graph, s: State)
    requires Inv(g, s) && CanRelax(g, s)
    ensures Inv(g, Relax(g, s))
  {
    RelaxShape(g, s);
    RelaxScanned(g, s);
    SameClosedFinished(g, s, Relax(g, s));
    RelaxLinked(g, s);
    RelaxLow(g, s);
  }

  // ----- a frame whose edges are all examined

  ghost predicate CanReturn(g: Graph, s: State)
    requires Shape(g, s)
  {
    && s.calls != []
    && var top := s.calls[|s.calls| - 1];
    && top.cursor == |g[top.node]|
  }

  /** The frame is popped and its `low` folded into its caller's. */
  ghost function Fold(s: State): State
    requires s.calls != []
    requires forall i :: 0 <= i < |s.calls| ==> s.calls[i].node < |s.low|
  {
    var rest := s.calls[..|s.calls| - 1];
    var v := s.calls[|s.calls| - 1].node;
    if rest == [] then s.(calls := rest)
    else
      var parent := rest[|rest| - 1].node;
      s.(calls := rest, low := s.low[parent := Min(s.low[parent], s.low[v])])
  }

  lemma FoldShape(g: Graph, s: State)
    requires Shape(g, s) && Scanned(g, s) && CanReturn(g, s)
    ensures Shape(g, Fold(s)) && Scanned(g, Fold(s))
  {
    var t := Fold(s);
    var last := |s.calls| - 1;
    var v := s.calls[last].node;
    forall x, y | 0 <= x < |g| && t.visited[x] && !Open(t, x) && y in g[x]
      ensures t.visited[y]
    {
      if x == v {
        var k :| 0 <= k < |g[v]| && g[v][k] == y;
        assert s.visited[g[s.calls[last].node][k]];
      } else {
        FoldKeepsOpen(g, s, x);
      }
    }
  }

  lemma FoldKeepsOpen(g: Graph, s: State, x: nat)
    requires Shape(g, s) && CanReturn(g, s) && x != s.calls[|s.calls| - 1].node
    ensures Open(s, x) ==> Open(Fold(s), x)
  {
    if Open(s, x) {
      var i :| 0 <= i < |s.calls| && s.calls[i].node == x;
      assert Fold(s).calls[i].node == x;
    }
  }

  /** A frame that is not a component root has an older open node within reach. */
  lemma OlderOpen(g: Graph, s: State) returns (i: nat)
    requires Shape(g, s) && Linked(g, s) && LowLinks(g, s) && CanReturn(g, s)
    requires s.low[s.calls[|s.calls| - 1].node] != s.index[s.calls[|s.calls| - 1].node]
    ensures i < |s.calls| - 1 && Reach(g, s.calls[|s.calls| - 1].node, s.calls[i].node)
  {
    hide Reach;
    var last := |s.calls| - 1;
    var v := s.calls[last].node;
    assert LowWitness(g, s, v);
    var u :| 0 <= u < |g| && s.onStack[u] && s.index[u] == s.low[v] && Reach(g, v, u);
    assert ReachesOpen(g, s, u);
    i :| 0 <= i < |s.calls| && s.index[s.calls[i].node] <= s.index[u] && Reach(g, u, s.calls[i].node);
    ReachTrans(g, v, u, s.calls[i].node);
  }

  lemma FoldReachesOpen(g: Graph, s: State, older: nat, x: nat)
    requires Shape(g, s) && CanReturn(g, s) && Shape(g, Fold(s))
    requires x < |g| && ReachesOpen(g, s, x)
    requires older < |s.calls| - 1 && Reach(g, s.calls[|s.calls| - 1].node, s.calls[older].node)
    ensures ReachesOpen(g, Fold(s), x)
  {
    hide Reach;
    var t := Fold(s);
    var last := |s.calls| - 1;
    var i :| 0 <= i < |s.calls| && s.index[s.calls[i].node] <= s.index[x] && Reach(g, x, s.calls[i].node);
    if i == last {
      ReachTrans(g, x, s.calls[last].node, s.calls[older].node);
      assert t.calls[older].node == s.calls[older].node;
    } else {
      assert t.calls[i].node == s.calls[i].node;
    }
  }

  lemma FoldLinked(g: Graph, s: State)
    requires Shape(g, s) && Linked(g, s) && LowLinks(g, s) && CanReturn(g, s) && Shape(g, Fold(s))
    requires s.low[s.calls[|s.calls| - 1].node] != s.index[s.calls[|s.calls| - 1].node]
    ensures Linked(g, Fold(s))
  {
    hide Reach, ReachesOpen;
    var t := Fold(s);
    var older := OlderOpen(g, s);
    forall x | 0 <= x < |g| && t.onStack[x]
      ensures ReachesOpen(g, t, x)
    {
      assert ReachesOpen(g, s, x);
      FoldReachesOpen(g, s, older, x);
    }
  }

  lemma FoldWitness(g: Graph, s: State, i: nat)
    requires Shape(g, s) && Linked(g, s) && LowLinks(g, s) && CanReturn(g, s) && Shape(g, Fold(s))
    requires i < |s.calls| - 1
    ensures LowWitness(g, Fold(s), s.calls[i].node)
  {
    hide Reach;
    var t := Fold(s);
    var v, x := s.calls[|s.calls| - 1].node, s.calls[i].node;
    assert LowWitness(g, s, x);
    if t.low[x] == s.low[x] {
      var u :| 0 <= u < |g| && s.onStack[u] && s.index[u] == s.low[x] && Reach(g, x, u);
      assert t.onStack[u];
    } else {
      assert LowWitness(g, s, v);
      var u :| 0 <= u < |g| && s.onStack[u] && s.index[u] == s.low[v] && Reach(g, v, u);
      assert Reach(g, x, v);
      ReachTrans(g, x, v, u);
      assert t.onStack[u];
    }
  }

  lemma FoldBound(g: Graph, s: State, i: nat, x: nat, y: nat)
    requires Shape(g, s) && LowLinks(g, s) && CanReturn(g, s) && Shape(g, Fold(s))
    requires i < |s.calls| - 1
    requires InSegment(g, Fold(s), i, x) && ExaminedEdge(g, Fold(s), i, x, y) && y < |g| && s.onStack[y]
    ensures Fold(s).low[s.calls[i].node] <= s.index[y]
  {
    hide Reach;
    var last := |s.calls| - 1;
    if InSegment(g, s, i, x) {
      assert ExaminedEdge(g, s, i, x, y);
    } else {
      assert i == last - 1 && InSegment(g, s, last, x);
      assert ExaminedEdge(g, s, last, x, y);
    }
  }

  lemma FoldLow(g: Graph, s: State)
    requires Shape(g, s) && Linked(g, s) && LowLinks(g, s) && CanReturn(g, s) && Shape(g, Fold(s))
    ensures LowLinks(g, Fold(s))
  {
    hide Reach;
    var t := Fold(s);
    forall i | 0 <= i < |t.calls|
      ensures LowWitness(g, t, t.calls[i].node)
    {
      FoldWitness(g, s, i);
    }
    forall i: nat, x: nat, y: nat |
      i < |t.calls| && InSegment(g, t, i, x) && ExaminedEdge(g, t, i, x, y) && y < |g| && t.onStack[y]
      ensures t.low[t.calls[i].node] <= t.index[y]
    {
      FoldBound(g, s, i, x, y);
    }
  }

  lemma FoldInv(g: Graph, s: State)
    requires Inv(g, s) && CanReturn(g, s)
    requires s.low[s.calls[|s.calls| - 1].node] != s.index[s.calls[|s.calls| - 1].node]
    ensures Inv(g, Fold(s))
  {
    FoldShape(g, s);
    SameClosedFinished(g, s, Fold(s));
    FoldLinked(g, s);
    FoldLow(g, s);
  }

  // ----- a component root

  /** `v` is the root of the component made of everything numbered from `v` upwards. */
  ghost predicate AtRoot(g: Graph, s: State)
    requires Shape(g, s)
  {
    && CanReturn(g, s)
    && var v := s.calls[|s.calls| - 1].node;
    && s.low[v] == s.index[v]
  }

  /** `t` is `s` after popping the root's frame and its component `scc`. */
  ghost predicate Popped(g: Graph, s: State, t: State, scc: seq<nat>)
    requires Shape(g, s) && AtRoot(g, s)
  {
    var root := s.index[s.calls[|s.calls| - 1].node];
    && t.visited == s.visited && t.index == s.index && t.low == s.low && t.next == s.next
    && t.calls == s.calls[..|s.calls| - 1]
    && t.sccs == s.sccs + [scc]
    && |t.onStack| == |g|
    && Distinct(scc)
    && (forall x :: 0 <= x < |g| ==> (t.onStack[x] <==> s.onStack[x] && s.index[x] < root))
    && (forall x: nat :: x in scc <==> x < |g| && s.onStack[x] && root <= s.index[x])
  }

  lemma RootKeepsLow(g: Graph, s: State)
    requires Inv(g, s) && AtRoot(g, s)
    ensures Fold(s).low == s.low
  {
    hide Scanned, Finished, Linked, StackOk;
  }

  /** Edges out of a component whose root has `low == index` stay inside it or lead to
      components already finished. */
  lemma RootClosed(g: Graph, s: State, x: nat, y: nat)
    requires Shape(g, s) && Scanned(g, s) && LowLinks(g, s) && AtRoot(g, s)
    requires x < |g| && s.onStack[x] && s.index[s.calls[|s.calls| - 1].node] <= s.index[x]
    requires Edge(g, x, y)
    ensures y < |g| && s.visited[y]
    ensures s.onStack[y] ==> s.index[s.calls[|s.calls| - 1].node] <= s.index[y]
  {
    var last := |s.calls| - 1;
    var v := s.calls[last].node;
    if x == v {
      var k :| 0 <= k < |g[v]| && g[v][k] == y;
      assert s.visited[g[s.calls[last].node][k]];
    } else {
      assert !Open(s, x);
    }
    assert InSegment(g, s, last, x);
    assert ExaminedEdge(g, s, last, x, y);
  }

  ghost function ComponentAndClosed(g: Graph, s: State): set<nat>
    requires Shape(g, s) && AtRoot(g, s)
  {
    var root := s.index[s.calls[|s.calls| - 1].node];
    set x: nat | x < |g| && s.visited[x] && (s.onStack[x] ==> root <= s.index[x])
  }

  lemma RootTraps(g: Graph, s: State, x: nat, y: nat)
    requires Shape(g, s) && Scanned(g, s) && Finished(g, s) && LowLinks(g, s) && AtRoot(g, s)
    requires x in ComponentAndClosed(g, s) && Reach(g, x, y)
    ensures y in ComponentAndClosed(g, s)
  {
    var inside := ComponentAndClosed(g, s);
    forall a, b | a in inside && Edge(g, a, b)
      ensures b in inside
    {
      if s.onStack[a] {
        RootClosed(g, s, a, b);
      } else {
        assert Closed(g, s, a);
        assert Closed(g, s, b);
      }
    }
    ClosedReach(g, inside, x, y);
  }

  lemma ClosedTraps(g: Graph, s: State, x: nat, y: nat)
    requires Shape(g, s) && Finished(g, s)
    requires Closed(g, s, x) && Reach(g, x, y)
    ensures Closed(g, s, y)
  {
    var inside := set v: nat | v < |g| && Closed(g, s, v);
    forall a, b | a in inside && Edge(g, a, b)
      ensures b in inside
    {
      assert Closed(g, s, b);
    }
    ClosedReach(g, inside, x, y);
  }

  /** Everything in the root's segment and the root reach each other. */
  lemma RootMutual(g: Graph, s: State, x: nat)
    requires Shape(g, s) && Scanned(g, s) && Finished(g, s) && Linked(g, s) && LowLinks(g, s) && AtRoot(g, s)
    requires x < |g| && s.onStack[x] && s.index[s.calls[|s.calls| - 1].node] <= s.index[x]
    ensures SameComponent(g, s.calls[|s.calls| - 1].node, x)
  {
    hide Reach;
    var last := |s.calls| - 1;
    var v := s.calls[last].node;
    assert Reach(g, v, x);
    assert ReachesOpen(g, s, x);
    var i :| 0 <= i < |s.calls| && s.index[s.calls[i].node] <= s.index[x] && Reach(g, x, s.calls[i].node);
    RootTraps(g, s, x, s.calls[i].node);
  }

  lemma RootComponent(g: Graph, s: State, t: State, scc: seq<nat>)
    requires Shape(g, s) && Scanned(g, s) && Finished(g, s) && Linked(g, s) && LowLinks(g, s) && AtRoot(g, s)
    requires Popped(g, s, t, scc)
    ensures IsComponent(g, scc)
  {
    var v := s.calls[|s.calls| - 1].node;
    assert v in scc;
    forall i, y: nat | 0 <= i < |scc|
      ensures y in scc <==> SameComponent(g, scc[i], y)
    {
      var x := scc[i];
      assert x in scc;
      RootMutual(g, s, x);
      if y in scc {
        RootMutual(g, s, y);
        ReachTrans(g, x, v, y);
        ReachTrans(g, y, v, x);
      } else if SameComponent(g, x, y) {
        RootTraps(g, s, x, y);
        assert Closed(g, s, y);
        ClosedTraps(g, s, y, x);
      }
    }
  }

  lemma PopShape(g: Graph, s: State, t: State, scc: seq<nat>)
    requires Shape(g, s) && Scanned(g, s) && AtRoot(g, s) && Popped(g, s, t, scc)
    ensures Shape(g, t) && Scanned(g, t)
  {
    FoldShape(g, s);
    var f := Fold(s);
    assert t.calls == f.calls;
    forall x: nat
      ensures Open(t, x) == Open(f, x)
    {
    }
  }

  lemma PopFinished(g: Graph, s: State, t: State, scc: seq<nat>)
    requires Shape(g, s) && Scanned(g, s) && Finished(g, s) && LowLinks(g, s) && AtRoot(g, s)
    requires Popped(g, s, t, scc) && Shape(g, t) && IsComponent(g, scc)
    ensures Finished(g, t)
  {
    forall v: nat
      ensures Closed(g, t, v) <==> Closed(g, s, v) || v in scc
    {
    }
    forall v: nat, w: nat | Closed(g, t, v) && w in g[v]
      ensures Closed(g, t, w)
    {
      if v in scc {
        RootClosed(g, s, v, w);
      } else {
        assert Closed(g, s, w);
      }
    }
    forall v: nat
      ensures InSome(t.sccs, v) <==> InSome(s.sccs, v) || v in scc
    {
      InSomeAppend(s.sccs, scc, v);
    }
    forall k, l, v: nat | 0 <= k < l < |t.sccs| && v in t.sccs[k]
      ensures v !in t.sccs[l]
    {
      if l == |s.sccs| {
        assert InSome(s.sccs, v);
        assert Closed(g, s, v);
      }
    }
  }

  lemma InSomeAppend(sccs: seq<seq<nat>>, scc: seq<nat>, v: nat)
    ensures InSome(sccs + [scc], v) <==> InSome(sccs, v) || v in scc
  {
    var all := sccs + [scc];
    if InSome(sccs, v) {
      var k :| 0 <= k < |sccs| && v in sccs[k];
      assert v in all[k];
    }
    if v in scc {
      assert v in all[|sccs|];
    }
  }

  lemma PopLinked(g: Graph, s: State, t: State, scc: seq<nat>)
    requires Shape(g, s) && Linked(g, s) && AtRoot(g, s) && Popped(g, s, t, scc) && Shape(g, t)
    ensures Linked(g, t)
  {
    hide Reach;
    forall x | 0 <= x < |g| && t.onStack[x]
      ensures ReachesOpen(g, t, x)
    {
      assert ReachesOpen(g, s, x);
      var i :| 0 <= i < |s.calls| && s.index[s.calls[i].node] <= s.index[x] && Reach(g, x, s.calls[i].node);
      assert t.calls[i].node == s.calls[i].node;
    }
  }

  lemma PopLow(g: Graph, s: State, t: State, scc: seq<nat>)
    requires Shape(g, s) && LowLinks(g, s) && AtRoot(g, s) && Popped(g, s, t, scc) && Shape(g, t)
    ensures LowLinks(g, t)
  {
    hide Reach;
    forall i | 0 <= i < |t.calls|
      ensures LowWitness(g, t, t.calls[i].node)
    {
      var x := s.calls[i].node;
      assert LowWitness(g, s, x);
      var u :| 0 <= u < |g| && s.onStack[u] && s.index[u] == s.low[x] && Reach(g, x, u);
      assert t.onStack[u];
    }
    forall i: nat, x: nat, y: nat |
      i < |t.calls| && InSegment(g, t, i, x) && ExaminedEdge(g, t, i, x, y) && y < |g| && t.onStack[y]
      ensures t.low[t.calls[i].node] <= t.index[y]
    {
      assert InSegment(g, s, i, x);
      assert ExaminedEdge(g, s, i, x, y);
    }
  }

  lemma PopInv(g: Graph, s: State, t: State, scc: seq<nat>)
    requires Inv(g, s) && AtRoot(g, s) && Popped(g, s, t, scc)
    requires Sized(g, t) && StackOk(g, t)
    ensures Inv(g, t)
  {
    PopShape(g, s, t, scc);
    RootComponent(g, s, t, scc);
    PopFinished(g, s, t, scc);
    PopLinked(g, s, t, scc);
    PopLow(g, s, t, scc);
  }

  // ----- the algorithm

  /** Pops the Tarjan stack down to and including `root`. */
  method PopComponent(onStack: array<bool>, stack: seq<nat>, root: nat)
      returns (rest: seq<nat>, scc: seq<nat>, ghost j: nat)
    requires forall i :: 0 <= i < |stack| ==> stack[i] < onStack.Length
    requires Distinct(stack) && root in stack
    modifies onStack
    ensures j < |stack| && stack[j] == root && rest == stack[..j] && IsReverse(scc, stack[j..])
    ensures forall x :: 0 <= x < onStack.Length ==> onStack[x] == (old(onStack[x]) && x !in scc)
  {
    rest, scc := stack, [];
    while rest != []
      invariant |rest| <= |stack| && rest == stack[..|rest|]
      invariant IsReverse(scc, stack[|rest|..])
      invariant root in rest
      invariant forall x :: 0 <= x < onStack.Length ==> onStack[x] == (old(onStack[x]) && x !in scc)
    {
      var w := rest[|rest| - 1];
      rest := rest[..|rest| - 1];
      onStack[w] := false;
      scc := scc + [w];
      assert stack[|rest|..] == [w] + stack[|rest| + 1..];
      if w == root {
        break;
      }
    }
    j := |rest|;
  }

  ghost predicate IsReverse(r: seq<nat>, s: seq<nat>) {
    && |r| == |s|
    && (forall i :: 0 <= i < |s| ==> r[i] == s[|s| - 1 - i])
    && (forall i :: 0 <= i < |s| ==> s[i] == r[|s| - 1 - i])
  }

  lemma ReverseHolds(scc: seq<nat>, stack: seq<nat>, j: nat, i: nat)
    requires i < |stack| && j < |stack| && IsReverse(scc, stack[j..])
    ensures j <= i ==> stack[i] in scc
  {
    if j <= i {
      assert stack[j..][i - j] == stack[i];
      assert scc[|scc| - 1 - (i - j)] == stack[i];
    }
  }

  lemma RootInv(g: Graph, s: State, t: State, scc: seq<nat>, j: nat)
    requires Inv(g, s) && AtRoot(g, s)
    requires j < |s.stack| && s.stack[j] == s.calls[|s.calls| - 1].node
    requires IsReverse(scc, s.stack[j..])
    requires t == s.(stack := s.stack[..j], onStack := t.onStack, sccs := s.sccs + [scc],
                     calls := s.calls[..|s.calls| - 1])
    requires |t.onStack| == |g|
    requires forall x :: 0 <= x < |g| ==> t.onStack[x] == (s.onStack[x] && x !in scc)
    ensures Inv(g, t)
  {
    hide Scanned, Finished, Linked, LowLinks;
    CutAtRoot(g, s, t, scc, j);
    PopInv(g, s, t, scc);
  }

  lemma NodeOnStack(g: Graph, s: State)
    requires Inv(g, s) && s.calls != []
    ensures Distinct(s.stack) && s.calls[|s.calls| - 1].node in s.stack
    ensures forall i :: 0 <= i < |s.stack| ==> s.stack[i] < |g|
  {
  }

  /** Cutting the stack at the root yields exactly the root's segment. */
  lemma CutMembers(g: Graph, s: State, scc: seq<nat>, j: nat, x: nat)
    requires Sized(g, s) && StackOk(g, s)
    requires j < |s.stack| && IsReverse(scc, s.stack[j..])
    ensures x in scc <==> x < |g| && s.onStack[x] && s.index[s.stack[j]] <= s.index[x]
  {
    if x in scc {
      var i :| 0 <= i < |scc| && scc[i] == x;
      assert x == s.stack[j..][|scc| - 1 - i] == s.stack[j + |scc| - 1 - i];
    } else if x < |g| && s.onStack[x] {
      var i :| 0 <= i < |s.stack| && s.stack[i] == x;
      ReverseHolds(scc, s.stack, j, i);
    }
  }

  lemma CutStack(g: Graph, s: State, t: State, j: nat)
    requires Sized(g, s) && StackOk(g, s) && Sized(g, t)
    requires j < |s.stack| && t.stack == s.stack[..j] && t.index == s.index
    requires forall x :: 0 <= x < |g| ==> (t.onStack[x] <==> s.onStack[x] && s.index[x] < s.index[s.stack[j]])
    ensures StackOk(g, t)
  {
    forall v | 0 <= v < |g| && t.onStack[v]
      ensures v in t.stack
    {
      var i :| 0 <= i < |s.stack| && s.stack[i] == v;
      assert i < j;
      assert t.stack[i] == v;
    }
  }

  lemma CutDistinct(g: Graph, s: State, scc: seq<nat>, j: nat)
    requires Sized(g, s) && StackOk(g, s)
    requires j < |s.stack| && IsReverse(scc, s.stack[j..])
    ensures Distinct(scc)
  {
    forall i, k | 0 <= i < k < |scc|
      ensures scc[i] != scc[k]
    {
      assert scc[i] == s.stack[j + |scc| - 1 - i];
      assert scc[k] == s.stack[j + |scc| - 1 - k];
    }
  }

  lemma CutAtRoot(g: Graph, s: State, t: State, scc: seq<nat>, j: nat)
    requires Shape(g, s) && StackOk(g, s) && AtRoot(g, s)
    requires j < |s.stack| && s.stack[j] == s.calls[|s.calls| - 1].node
    requires IsReverse(scc, s.stack[j..])
    requires t == s.(stack := s.stack[..j], onStack := t.onStack, sccs := s.sccs + [scc],
                     calls := s.calls[..|s.calls| - 1])
    requires |t.onStack| == |g|
    requires forall x :: 0 <= x < |g| ==> t.onStack[x] == (s.onStack[x] && x !in scc)
    ensures Popped(g, s, t, scc) && Sized(g, t) && StackOk(g, t)
  {
    hide StackOk, IsReverse;
    forall x: nat
      ensures x in scc <==> x < |g| && s.onStack[x] && s.index[s.stack[j]] <= s.index[x]
    {
      CutMembers(g, s, scc, j, x);
    }
    CutDistinct(g, s, scc, j);
    CutStack(g, s, t, j);
  }

  ghost predicate Partition(g: Graph, sccs: seq<seq<nat>>) {
    && (forall k :: 0 <= k < |sccs| ==> IsComponent(g, sccs[k]) && Distinct(sccs[k]))
    && (forall v: nat :: v < |g| <==> InSome(sccs, v))
    && (forall k, l, v: nat :: 0 <= k < l < |sccs| && v in sccs[k] ==> v !in sccs[l])
  }

  lemma AllFinished(g: Graph, s: State)
    requires Inv(g, s) && s.calls == []
    requires forall v :: 0 <= v < |g| ==> s.visited[v]
    ensures Partition(g, s.sccs)
  {
    assert forall v :: 0 <= v < |g| && s.onStack[v] ==> ReachesOpen(g, s, v);
    forall v: nat
      ensures v < |g| <==> InSome(s.sccs, v)
    {
      assert Closed(g, s, v) <==> v < |g|;
    }
  }

  /** Numbers never pass the node count, so 32-bit counters cannot wrap. */
  lemma NextBounded(g: Graph, s: State)
    requires Inv(g, s)
    ensures s.next <= |g|
  {
    BelowSize(|g|);
    assert VisitedSet(s.visited) <= Below(|g|);
    SubsetSize(VisitedSet(s.visited), Below(|g|));
  }

  method FindComponents(g: Graph) returns (sccs: seq<seq<nat>>)
    requires WellFormed(g)
    ensures Partition(g, sccs)
  {
    hide StackOk, Scanned, Finished, Linked, LowLinks;
    var n := |g|;
    var visited := new bool[n](_ => false);
    var index := new nat[n](_ => 0);
    var low := new nat[n](_ => 0);
    var onStack := new bool[n](_ => false);
    var stack: seq<nat> := [];
    var next := 0;
    sccs := [];
    ghost var s := State(visited[..], index[..], low[..], onStack[..], stack, next, sccs, []);
    InitialInv(g, s);
    for start := 0 to n
      invariant s == State(visited[..], index[..], low[..], onStack[..], stack, next, sccs, [])
      invariant Inv(g, s)
      invariant forall v :: 0 <= v < start ==> visited[v]
    {
      if visited[start] {
        continue;
      }
      stack, next, sccs := Explore(g, start, visited, index, low, onStack, stack, next, sccs, s);
      s := State(visited[..], index[..], low[..], onStack[..], stack, next, sccs, []);
    }
    AllFinished(g, s);
  }

  /** Numbers a freshly found node and flags it as being on the stack. */
  method Number(w: nat, next: nat, visited: array<bool>, index: array<nat>, low: array<nat>, onStack: array<bool>)
    requires visited != onStack && index != low
    requires w < visited.Length == index.Length == low.Length == onStack.Length
    modifies visited, index, low, onStack
    ensures visited[..] == old(visited[..])[w := true] && index[..] == old(index[..])[w := next]
    ensures low[..] == old(low[..])[w := next] && onStack[..] == old(onStack[..])[w := true]
  {
    visited[w] := true;
    index[w] := next;
    low[w] := next;
    onStack[w] := true;
  }

  /** One pass of the outer loop: the depth-first walk from an unvisited `start`. */
  method Explore(g: Graph, start: nat, visited: array<bool>, index: array<nat>, low: array<nat>, onStack: array<bool>,
                 stack0: seq<nat>, next0: nat, sccs0: seq<seq<nat>>, ghost s0: State)
    returns (stack: seq<nat>, next: nat, sccs: seq<seq<nat>>)
    requires visited != onStack && index != low
    requires s0 == State(visited[..], index[..], low[..], onStack[..], stack0, next0, sccs0, [])
    requires Inv(g, s0) && start < |g| && !s0.visited[start]
    modifies visited, index, low, onStack
    ensures Inv(g, State(visited[..], index[..], low[..], onStack[..], stack, next, sccs, []))
    ensures visited[start] && forall v :: 0 <= v < |g| && old(visited[v]) ==> visited[v]
  {
    hide StackOk, Scanned, Finished, Linked, LowLinks;
    stack, next, sccs := stack0, next0, sccs0;
    ghost var s := Enter(s0, start);
    EnterInv(g, s0, start);
    Number(start, next, visited, index, low, onStack);
    next := next + 1;
    stack := stack + [start];
    var calls := [Frame(start, 0)];
    while calls != []
      invariant s == State(visited[..], index[..], low[..], onStack[..], stack, next, sccs, calls)
      invariant Inv(g, s)
      invariant s.visited[start] && forall v :: 0 <= v < |g| && s0.visited[v] ==> s.visited[v]
      decreases |g| - next, |calls|, Remaining(g, calls)
    {
      NextBounded(g, s);
      var top := |calls| - 1;
      var v, cursor := calls[top].node, calls[top].cursor;
      if cursor < |g[v]| {
        stack, next, calls := Examine(g, visited, index, low, onStack, stack, next, sccs, calls, s);
      } else {
        stack, sccs, calls := Return(g, visited, index, low, onStack, stack, next, sccs, calls, s);
      }
      s := State(visited[..], index[..], low[..], onStack[..], stack, next, sccs, calls);
      NextBounded(g, s);
    }
  }

  ghost function Remaining(g: Graph, calls: seq<Frame>): int {
    if calls == [] || calls[|calls| - 1].node >= |g| then 0
    else |g[calls[|calls| - 1].node]| - calls[|calls| - 1].cursor
  }

  /** The top frame looks at its next edge. */
  method Examine(g: Graph, visited: array<bool>, index: array<nat>, low: array<nat>, onStack: array<bool>,
                 stack0: seq<nat>, next0: nat, sccs: seq<seq<nat>>, calls0: seq<Frame>, ghost s: State)
    returns (stack: seq<nat>, next: nat, calls: seq<Frame>)
    requires visited != onStack && index != low
    requires s == State(visited[..], index[..], low[..], onStack[..], stack0, next0, sccs, calls0)
    requires Inv(g, s) && calls0 != []
    requires var top := calls0[|calls0| - 1]; top.cursor < |g[top.node]|
    modifies visited, index, low, onStack
    ensures Inv(g, State(visited[..], index[..], low[..], onStack[..], stack, next, sccs, calls))
    ensures forall v :: 0 <= v < |g| && s.visited[v] ==> visited[v]
    ensures next0 < next || (next == next0 && |calls| == |calls0| && Remaining(g, calls) < Remaining(g, calls0))
  {
    hide StackOk, Scanned, Finished, Linked, LowLinks;
    stack, next := stack0, next0;
    var top := |calls0| - 1;
    var v, cursor := calls0[top].node, calls0[top].cursor;
    var w := g[v][cursor];
    calls := calls0[top := Frame(v, cursor + 1)];
    if !visited[w] {
      EnterInv(g, s, w);
      Number(w, next, visited, index, low, onStack);
      next := next + 1;
      stack := stack + [w];
      calls := calls + [Frame(w, 0)];
      assert State(visited[..], index[..], low[..], onStack[..], stack, next, sccs, calls) == Enter(s, w);
    } else {
      RelaxInv(g, s);
      if onStack[w] {
        low[v] := Min(low[v], index[w]);
      }
      assert State(visited[..], index[..], low[..], onStack[..], stack, next, sccs, calls) == Relax(g, s);
    }
  }

  /** The top frame has no edges left: fold `low` into the caller and pop a finished component. */
  method Return(g: Graph, visited: array<bool>, index: array<nat>, low: array<nat>, onStack: array<bool>,
                stack0: seq<nat>, next: nat, sccs0: seq<seq<nat>>, calls0: seq<Frame>, ghost s: State)
    returns (stack: seq<nat>, sccs: seq<seq<nat>>, calls: seq<Frame>)
    requires visited != onStack && index != low
    requires s == State(visited[..], index[..], low[..], onStack[..], stack0, next, sccs0, calls0)
    requires Inv(g, s) && CanReturn(g, s)
    modifies low, onStack
    ensures Inv(g, State(visited[..], index[..], low[..], onStack[..], stack, next, sccs, calls))
    ensures |calls| < |calls0|
  {
    hide StackOk, Scanned, Finished, Linked, LowLinks;
    stack, sccs := stack0, sccs0;
    var top := |calls0| - 1;
    var v := calls0[top].node;
    calls := calls0[..top];
    if calls != [] {
      var parent := calls[|calls| - 1].node;
      low[parent] := Min(low[parent], low[v]);
    }
    if low[v] == index[v] {
      NodeOnStack(g, s);
      RootKeepsLow(g, s);
      assert low[..] == Fold(s).low;
      var scc;
      ghost var j;
      stack, scc, j := PopComponent(onStack, stack, v);
      sccs := sccs + [scc];
      RootInv(g, s, State(visited[..], index[..], low[..], onStack[..], stack, next, sccs, calls), scc, j);
    } else {
      FoldInv(g, s);
      assert State(visited[..], index[..], low[..], onStack[..], stack, next, sccs, calls) == Fold(s);
    }
  }
}
