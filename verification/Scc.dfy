/** Strongly connected components of the call graph: SccFinder in src/engine/FunctionSummary.cpp. */
module Scc {

  type Node = nat
  type Edges = map<Node, seq<Node>>

  /** Calls lead to functions of the graph. */
  ghost predicate Closed(edges: Edges) {
    forall a, b :: a in edges && b in edges[a] ==> b in edges
  }

  ghost predicate Edge(edges: Edges, a: Node, b: Node) {
    a in edges && b in edges[a]
  }

  // --- Reachability ---

  ghost predicate IsPath(edges: Edges, p: seq<Node>, a: Node, b: Node) {
    && p != [] && p[0] == a && p[|p| - 1] == b
    && forall i :: 0 <= i < |p| - 1 ==> Edge(edges, p[i], p[i + 1])
  }

  ghost predicate Reach(edges: Edges, a: Node, b: Node) {
    exists p :: IsPath(edges, p, a, b)
  }

  lemma ReachSelf(edges: Edges, a: Node)
    ensures Reach(edges, a, a)
  {
    assert IsPath(edges, [a], a, a);
  }

  lemma ReachEdge(edges: Edges, a: Node, b: Node)
    requires Edge(edges, a, b)
    ensures Reach(edges, a, b)
  {
    assert IsPath(edges, [a, b], a, b);
  }

  lemma ReachTrans(edges: Edges, a: Node, b: Node, c: Node)
    requires Reach(edges, a, b) && Reach(edges, b, c)
    ensures Reach(edges, a, c)
  {
    var p :| IsPath(edges, p, a, b);
    var q :| IsPath(edges, q, b, c);
    var r := p + q[1..];
    forall i | 0 <= i < |r| - 1
      ensures Edge(edges, r[i], r[i + 1])
    {
      if i >= |p| - 1 {
        assert r[i] == q[i - (|p| - 1)] && r[i + 1] == q[i + 1 - (|p| - 1)];
      }
    }
    assert IsPath(edges, r, a, c);
  }

  ghost predicate EdgeClosed(edges: Edges, k: set<Node>) {
    forall a, b :: a in k && Edge(edges, a, b) ==> b in k
  }

  lemma {:induction false} PathStays(edges: Edges, k: set<Node>, p: seq<Node>, i: nat)
    requires EdgeClosed(edges, k) && i < |p| && p[0] in k
    requires forall j :: 0 <= j < |p| - 1 ==> Edge(edges, p[j], p[j + 1])
    ensures p[i] in k
  {
    if i > 0 {
      PathStays(edges, k, p, i - 1);
      assert Edge(edges, p[i - 1], p[i]);
    }
  }

  lemma ReachStays(edges: Edges, k: set<Node>, a: Node, b: Node)
    requires EdgeClosed(edges, k) && a in k && Reach(edges, a, b)
    ensures b in k
  {
    var p :| IsPath(edges, p, a, b);
    PathStays(edges, k, p, |p| - 1);
  }

  ghost predicate Mutual(edges: Edges, a: Node, b: Node) {
    Reach(edges, a, b) && Reach(edges, b, a)
  }

  // --- What the emitted components are ---

  function ToSet(s: seq<Node>): set<Node> {
    set n | n in s
  }

  function Members(components: seq<seq<Node>>): set<Node> {
    if components == [] then {}
    else Members(components[..|components| - 1]) + ToSet(components[|components| - 1])
  }

  ghost predicate Distinct(s: seq<Node>) {
    forall i, j :: 0 <= i < j < |s| ==> s[i] != s[j]
  }

  /**
   One emitted component, given the ones emitted before it: new nodes, each once, exactly the
   nodes mutually reachable with any of them, and calling only itself or earlier components.
   */
  ghost predicate NextComponent(edges: Edges, earlier: set<Node>, comp: seq<Node>) {
    && comp != [] && Distinct(comp)
    && (forall a :: a in comp ==> a in edges && a !in earlier)
    && (forall a, x :: a in comp ==> (x in comp <==> Mutual(edges, a, x)))
    && (forall a, b :: a in comp && Edge(edges, a, b) ==> b in comp || b in earlier)
  }

  ghost predicate Components(edges: Edges, components: seq<seq<Node>>) {
    forall k :: 0 <= k < |components| ==> NextComponent(edges, Members(components[..k]), components[k])
  }

  lemma MembersAppend(components: seq<seq<Node>>, comp: seq<Node>)
    ensures Members(components + [comp]) == Members(components) + ToSet(comp)
  {
    assert (components + [comp])[..|components|] == components;
  }

  lemma ComponentsAppend(edges: Edges, components: seq<seq<Node>>, comp: seq<Node>)
    requires Components(edges, components) && NextComponent(edges, Members(components), comp)
    ensures Components(edges, components + [comp])
  {
    var cs := components + [comp];
    forall k | 0 <= k < |cs|
      ensures NextComponent(edges, Members(cs[..k]), cs[k])
    {
      assert cs[..k] == components[..k];
      assert components[..|components|] == components;
    }
  }

  lemma {:induction false} MembersClosed(edges: Edges, components: seq<seq<Node>>)
    requires Components(edges, components)
    ensures EdgeClosed(edges, Members(components))
  {
    if components != [] {
      var n := |components| - 1;
      var prefix := components[..n];
      forall k | 0 <= k < |prefix|
        ensures NextComponent(edges, Members(prefix[..k]), prefix[k])
      {
        assert prefix[..k] == components[..k];
      }
      MembersClosed(edges, prefix);
      assert NextComponent(edges, Members(components[..n]), components[n]);
    }
  }

  lemma {:induction false} MemberOf(components: seq<seq<Node>>, n: Node) returns (k: nat)
    requires n in Members(components)
    ensures k < |components| && n in components[k]
  {
    var last := |components| - 1;
    if n in components[last] {
      k := last;
    } else {
      k := MemberOf(components[..last], n);
    }
  }

  lemma {:induction false} ComponentInMembers(components: seq<seq<Node>>, k: nat, n: Node)
    requires k < |components| && n in components[k]
    ensures n in Members(components)
  {
    if k < |components| - 1 {
      ComponentInMembers(components[..|components| - 1], k, n);
    }
  }

  // --- The state of the search ---

  /** The finder's fields; the functions being visited are the gray ones. */
  datatype Search = Search(index: map<Node, int>, next: int, stack: seq<Node>, components: seq<seq<Node>>)

  /** b was numbered after a. */
  ghost predicate Later(st: Search, a: Node, b: Node) {
    a in st.index && b in st.index && st.index[a] < st.index[b]
  }

  ghost predicate StackOrder(st: Search) {
    && (forall i :: 0 <= i < |st.stack| ==> st.stack[i] in st.index)
    && (forall i, j :: 0 <= i < j < |st.stack| ==> Later(st, st.stack[i], st.stack[j]))
  }

  /** Numbered nodes are on the stack or emitted, never both. */
  ghost predicate Numbered(edges: Edges, st: Search) {
    && (forall n :: n in st.index ==> n in edges && 0 <= st.index[n] < st.next)
    && (forall n :: n in st.index <==> n in st.stack || n in Members(st.components))
    && (forall n :: n in st.stack ==> n !in Members(st.components))
  }

  /** A node whose visit is over has all its callees numbered. */
  ghost predicate BlackDone(edges: Edges, st: Search, gray: set<Node>) {
    forall a, b :: a in st.index && a !in gray && Edge(edges, a, b) ==> b in st.index
  }

  ghost predicate GrayOnStack(st: Search, gray: set<Node>) {
    forall g :: g in gray ==> g in st.stack
  }

  ghost predicate Anchor(edges: Edges, st: Search, gray: set<Node>, x: Node, g: Node)
    requires x in st.index
  {
    g in gray && g in st.index && st.index[g] <= st.index[x] && Reach(edges, x, g)
  }

  /** Every stacked node reaches a node under visit that was numbered no later. */
  ghost predicate Anchored(edges: Edges, st: Search, gray: set<Node>) {
    forall x :: x in st.stack && x in st.index ==> exists g :: Anchor(edges, st, gray, x, g)
  }

  /** A node under visit reaches everything stacked after it. */
  ghost predicate GrayReaches(edges: Edges, st: Search, gray: set<Node>) {
    forall g, x :: g in gray && x in st.stack && g in st.index && x in st.index && st.index[g] <= st.index[x] ==>
      Reach(edges, g, x)
  }

  ghost predicate Inv(edges: Edges, st: Search, gray: set<Node>) {
    && StackOrder(st) && Numbered(edges, st) && BlackDone(edges, st, gray)
    && GrayOnStack(st, gray) && Anchored(edges, st, gray) && GrayReaches(edges, st, gray)
    && Components(edges, st.components)
  }

  function Push(st: Search, node: Node): Search {
    Search(st.index[node := st.next], st.next + 1, st.stack + [node], st.components)
  }

  lemma PushKeepsInv(edges: Edges, st: Search, gray: set<Node>, node: Node)
    requires Inv(edges, st, gray) && 0 <= st.next && node in edges && node !in st.index
    requires forall g :: g in gray ==> Reach(edges, g, node)
    ensures Inv(edges, Push(st, node), gray + {node})
  {
    PushOrder(edges, st, node);
    PushNumbered(edges, st, node);
    PushAnchored(edges, st, gray, node);
    PushGrayReaches(edges, st, gray, node);
  }

  lemma PushOrder(edges: Edges, st: Search, node: Node)
    requires StackOrder(st) && Numbered(edges, st) && node !in st.index
    ensures StackOrder(Push(st, node))
  {
    var st' := Push(st, node);
    forall i, j | 0 <= i < j < |st'.stack|
      ensures Later(st', st'.stack[i], st'.stack[j])
    {
      if j < |st.stack| {
        assert Later(st, st.stack[i], st.stack[j]);
      }
    }
  }

  lemma PushNumbered(edges: Edges, st: Search, node: Node)
    requires Numbered(edges, st) && 0 <= st.next && node in edges && node !in st.index
    ensures Numbered(edges, Push(st, node))
  {
  }

  lemma PushAnchored(edges: Edges, st: Search, gray: set<Node>, node: Node)
    requires Anchored(edges, st, gray) && Numbered(edges, st) && node !in st.index
    ensures Anchored(edges, Push(st, node), gray + {node})
  {
    var st', gray' := Push(st, node), gray + {node};
    forall x | x in st'.stack && x in st'.index
      ensures exists g :: Anchor(edges, st', gray', x, g)
    {
      if x == node {
        ReachSelf(edges, node);
        assert Anchor(edges, st', gray', x, node);
      } else {
        var g :| Anchor(edges, st, gray, x, g);
        assert Anchor(edges, st', gray', x, g);
      }
    }
  }

  lemma PushGrayReaches(edges: Edges, st: Search, gray: set<Node>, node: Node)
    requires GrayReaches(edges, st, gray) && Numbered(edges, st) && node !in st.index
    requires forall g :: g in gray ==> Reach(edges, g, node)
    ensures GrayReaches(edges, Push(st, node), gray + {node})
  {
    ReachSelf(edges, node);
  }

  function Min(a: int, b: int): int {
    if b < a then b else a
  }

  // --- Scanning the callees of a node under visit ---

  /** x is reachable from node and is either node or still stacked below it. */
  ghost predicate Attains(edges: Edges, st0: Search, st: Search, node: Node, low: int, x: Node) {
    && x in st.index && st.index[x] == low && Reach(edges, node, x)
    && (x == node || x in st0.stack)
  }

  /** Edges from the nodes stacked above st0 into st0's stack do not go below low. */
  ghost predicate BoundsEdges(edges: Edges, st0: Search, st: Search, from: int, low: int) {
    forall i, y :: from <= i < |st.stack| && 0 <= i && y in st0.stack && y in st.index && Edge(edges, st.stack[i], y) ==>
      low <= st.index[y]
  }

  ghost predicate Extends(st0: Search, st: Search) {
    && st0.stack <= st.stack && st0.next <= st.next
    && (forall n :: n in st0.index ==> n in st.index && st.index[n] == st0.index[n])
    && (forall n :: n in st.index && n !in st0.index ==> st.index[n] >= st0.next)
  }

  /** The callees before i have been followed from node, which was pushed on st0. */
  ghost predicate Scanning(edges: Edges, st0: Search, st: Search, gray: set<Node>, node: Node, low: int, i: nat)
    requires node in edges
  {
    && Inv(edges, st, gray + {node}) && node !in gray && node !in st0.index
    && (forall g :: g in gray ==> g in st0.stack && Reach(edges, g, node))
    && Extends(st0, st) && st0.stack + [node] <= st.stack
    && node in st.index && st.index[node] == st0.next && low <= st0.next
    && (exists x :: Attains(edges, st0, st, node, low, x))
    && BoundsEdges(edges, st0, st, |st0.stack| + 1, low)
    && i <= |edges[node]|
    && (forall k :: 0 <= k < i ==> edges[node][k] in st.index)
    && (forall k :: 0 <= k < i && edges[node][k] in st0.stack ==> low <= st.index[edges[node][k]])
  }

  /** The outcome of visiting node from st0. */
  ghost predicate Explored(edges: Edges, st0: Search, st: Search, gray: set<Node>, node: Node, low: int) {
    && Inv(edges, st, gray) && Extends(st0, st)
    && node in st.index && st.index[node] == st0.next && low <= st0.next
    && (exists x :: Attains(edges, st0, st, node, low, x))
    && BoundsEdges(edges, st0, st, |st0.stack|, low)
    && (st.stack == st0.stack || low < st0.next)
  }

  /** What a visit asks for. */
  ghost predicate Visitable(edges: Edges, st: Search, gray: set<Node>, node: Node) {
    && Closed(edges) && Inv(edges, st, gray) && 0 <= st.next
    && node in edges && node !in st.index && node !in gray
    && forall g :: g in gray ==> Reach(edges, g, node)
  }

  /** The everyday consequences of the invariant. */
  lemma InvFacts(edges: Edges, st: Search, gray: set<Node>)
    requires Inv(edges, st, gray)
    ensures forall g :: g in gray ==> g in st.stack
    ensures forall x :: x in st.stack ==> x in st.index
    ensures forall x :: x in st.index ==> x in edges && 0 <= st.index[x] < st.next
  {
    hide Components, Anchored, GrayReaches, BlackDone, StackOrder;
  }

  lemma PushStartsScan(edges: Edges, st0: Search, gray: set<Node>, node: Node)
    requires Visitable(edges, st0, gray, node)
    ensures Scanning(edges, st0, Push(st0, node), gray, node, st0.next, 0)
  {
    hide Inv, Reach;
    InvFacts(edges, st0, gray);
    PushKeepsInv(edges, st0, gray, node);
    ReachSelf(edges, node);
    assert Attains(edges, st0, Push(st0, node), node, st0.next, node);
  }

  /** A callee already numbered and still stacked lowers low to its number. */
  lemma ScanStacked(edges: Edges, st0: Search, st: Search, gray: set<Node>, node: Node, low: int, i: nat)
    requires node in edges && Scanning(edges, st0, st, gray, node, low, i) && i < |edges[node]|
    requires edges[node][i] in st.stack
    ensures edges[node][i] in st.index
    ensures var m := st.index[edges[node][i]];
            Scanning(edges, st0, st, gray, node, Min(low, m), i + 1)
  {
    hide Inv, Reach;
    InvFacts(edges, st, gray + {node});
    var callee := edges[node][i];
    var m := st.index[callee];
    if m < low {
      assert Edge(edges, node, callee);
      ReachEdge(edges, node, callee);
      StackedBelow(edges, st0, st, gray, node, callee);
      assert Attains(edges, st0, st, node, m, callee);
    }
  }

  lemma StackedBelow(edges: Edges, st0: Search, st: Search, gray: set<Node>, node: Node, x: Node)
    requires Inv(edges, st, gray + {node}) && Extends(st0, st) && st0.stack + [node] <= st.stack
    requires node in st.index && x in st.stack && x in st.index && st.index[x] < st.index[node]
    ensures x in st0.stack
  {
    hide Components, Anchored, GrayReaches, BlackDone, Numbered, GrayOnStack;
    var k :| 0 <= k < |st.stack| && st.stack[k] == x;
    var base := |st0.stack|;
    assert st.stack[base] == node;
    assert k > base ==> Later(st, node, x);
    assert st.stack[..base] == st0.stack;
  }

  /** A callee that has already been emitted changes nothing. */
  lemma ScanEmitted(edges: Edges, st0: Search, st: Search, gray: set<Node>, node: Node, low: int, i: nat)
    requires node in edges && Scanning(edges, st0, st, gray, node, low, i) && i < |edges[node]|
    requires edges[node][i] in st.index && edges[node][i] !in st.stack
    ensures Scanning(edges, st0, st, gray, node, low, i + 1)
  {
    hide Inv, Reach, Attains;
    assert forall x :: x in st0.stack ==> x in st.stack;
  }

  /** A callee not seen before can be visited. */
  lemma ScanCanVisit(edges: Edges, st0: Search, st: Search, gray: set<Node>, node: Node, low: int, i: nat)
    requires Closed(edges) && 0 <= st.next
    requires node in edges && Scanning(edges, st0, st, gray, node, low, i) && i < |edges[node]|
    requires edges[node][i] !in st.index
    ensures Visitable(edges, st, gray + {node}, edges[node][i])
  {
    hide Inv, Reach, Attains, BoundsEdges;
    InvFacts(edges, st, gray + {node});
    var callee := edges[node][i];
    assert Edge(edges, node, callee);
    ReachEdge(edges, node, callee);
    forall g | g in gray + {node}
      ensures Reach(edges, g, callee)
    {
      if g != node {
        ReachTrans(edges, g, node, callee);
      }
    }
  }

  lemma ExtendsTrans(st0: Search, st: Search, st1: Search)
    requires Extends(st0, st) && Extends(st, st1)
    ensures Extends(st0, st1)
  {
  }

  lemma VisitedBounds(edges: Edges, st0: Search, st: Search, st1: Search, from: nat, low: int, lowC: int)
    requires Extends(st0, st) && Extends(st, st1) && from <= |st.stack|
    requires forall x :: x in st.stack ==> x in st.index
    requires BoundsEdges(edges, st0, st, from, low) && BoundsEdges(edges, st, st1, |st.stack|, lowC)
    ensures BoundsEdges(edges, st0, st1, from, Min(low, lowC))
  {
    forall i, y | from <= i < |st1.stack| && y in st0.stack && y in st1.index && Edge(edges, st1.stack[i], y)
      ensures (Min(low, lowC)) <= st1.index[y]
    {
      assert y in st.stack;
      if i < |st.stack| {
        assert st1.stack[i] == st.stack[i];
      }
    }
  }

  lemma VisitedAttains(
    edges: Edges, st0: Search, st: Search, st1: Search, gray: set<Node>, node: Node, low: int, i: nat, lowC: int)
    requires node in edges && Scanning(edges, st0, st, gray, node, low, i) && i < |edges[node]|
    requires edges[node][i] !in st.index && Explored(edges, st, st1, gray + {node}, edges[node][i], lowC)
    ensures exists x :: Attains(edges, st0, st1, node, Min(low, lowC), x)
  {
    hide Inv, Reach, BoundsEdges;
    var callee := edges[node][i];
    if lowC < low {
      var x :| Attains(edges, st, st1, callee, lowC, x);
      InvFacts(edges, st, gray + {node});
      assert x in st.stack;
      StackedBelow(edges, st0, st, gray, node, x);
      assert Edge(edges, node, callee);
      ReachEdge(edges, node, callee);
      ReachTrans(edges, node, callee, x);
      assert Attains(edges, st0, st1, node, Min(low, lowC), x);
    } else {
      var x :| Attains(edges, st0, st, node, low, x);
      assert Attains(edges, st0, st1, node, Min(low, lowC), x);
    }
  }

  /** Coming back from a callee, low absorbs the callee's. */
  lemma ScanVisited(
    edges: Edges, st0: Search, st: Search, st1: Search, gray: set<Node>, node: Node, low: int, i: nat, lowC: int)
    requires node in edges && Scanning(edges, st0, st, gray, node, low, i) && i < |edges[node]|
    requires edges[node][i] !in st.index && Explored(edges, st, st1, gray + {node}, edges[node][i], lowC)
    ensures Scanning(edges, st0, st1, gray, node, Min(low, lowC), i + 1)
  {
    hide Inv, Reach, BoundsEdges, Attains;
    InvFacts(edges, st, gray + {node});
    ExtendsTrans(st0, st, st1);
    VisitedBounds(edges, st0, st, st1, |st0.stack| + 1, low, lowC);
    VisitedAttains(edges, st0, st, st1, gray, node, low, i, lowC);
    assert forall x :: x in st0.stack ==> x in st.stack;
  }

  // --- The end of a visit ---

  lemma NodeEdgesBounded(edges: Edges, st0: Search, st: Search, gray: set<Node>, node: Node, low: int)
    requires node in edges && Scanning(edges, st0, st, gray, node, low, |edges[node]|)
    ensures BoundsEdges(edges, st0, st, |st0.stack|, low)
    ensures forall b :: Edge(edges, node, b) ==> b in st.index
  {
    hide Inv, Reach, Attains;
    forall b | Edge(edges, node, b)
      ensures b in st.index && (b in st0.stack ==> low <= st.index[b])
    {
      var k :| 0 <= k < |edges[node]| && edges[node][k] == b;
    }
    assert st.stack[|st0.stack|] == node;
  }

  lemma BelowNode(edges: Edges, st0: Search, st: Search, gray: set<Node>, node: Node, x: Node)
    requires StackOrder(st) && st0.stack + [node] <= st.stack && x in st0.stack
    ensures Later(st, x, node)
  {
    var k :| 0 <= k < |st0.stack| && st0.stack[k] == x;
    assert st.stack[k] == x && st.stack[|st0.stack|] == node;
  }

  lemma RetireBlackDone(edges: Edges, st: Search, gray: set<Node>, node: Node)
    requires BlackDone(edges, st, gray + {node}) && forall b :: Edge(edges, node, b) ==> b in st.index
    ensures BlackDone(edges, st, gray)
  {
  }

  /** When node reaches a node y stacked below it, y's anchor serves everything node anchored. */
  lemma RetireAnchored(edges: Edges, st: Search, gray: set<Node>, node: Node, y: Node)
    requires Anchored(edges, st, gray + {node}) && node in st.index
    requires y in st.stack && y in st.index && st.index[y] < st.index[node] && Reach(edges, node, y)
    ensures Anchored(edges, st, gray)
  {
    hide Reach;
    var g' :| Anchor(edges, st, gray + {node}, y, g');
    ReachTrans(edges, node, y, g');
    forall x | x in st.stack && x in st.index
      ensures exists g :: Anchor(edges, st, gray, x, g)
    {
      var g :| Anchor(edges, st, gray + {node}, x, g);
      if g == node {
        ReachTrans(edges, x, node, g');
        assert Anchor(edges, st, gray, x, g');
      } else {
        assert Anchor(edges, st, gray, x, g);
      }
    }
  }

  lemma ScanRetires(edges: Edges, st0: Search, st: Search, gray: set<Node>, node: Node, low: int)
    requires node in edges && Scanning(edges, st0, st, gray, node, low, |edges[node]|) && low < st0.next
    ensures Explored(edges, st0, st, gray, node, low)
  {
    hide Reach, Components, StackOrder, Numbered, Anchored, BlackDone, BoundsEdges;
    NodeEdgesBounded(edges, st0, st, gray, node, low);
    var y :| Attains(edges, st0, st, node, low, y);
    RetireAnchored(edges, st, gray, node, y);
    RetireBlackDone(edges, st, gray, node);
    assert forall x :: x in st0.stack ==> x in st.stack;
  }

  /** The part of the stack from position base on, in popping order. */
  function PoppedFrom(stack: seq<Node>, base: nat): seq<Node>
    requires base <= |stack|
  {
    seq(|stack| - base, i requires 0 <= i < |stack| - base => stack[|stack| - 1 - i])
  }

  function Pop(st: Search, base: nat): Search
    requires base <= |st.stack|
  {
    Search(st.index, st.next, st.stack[..base], st.components + [PoppedFrom(st.stack, base)])
  }

  lemma PoppedFacts(st: Search, base: nat)
    requires StackOrder(st) && base < |st.stack|
    ensures Distinct(PoppedFrom(st.stack, base)) && PoppedFrom(st.stack, base) != []
    ensures forall x :: x in PoppedFrom(st.stack, base) ==> x in st.stack && x !in st.stack[..base] && x in st.index
    ensures forall x :: x in st.stack ==> x in st.stack[..base] || x in PoppedFrom(st.stack, base)
    ensures forall x :: x in PoppedFrom(st.stack, base) ==>
              st.stack[base] in st.index && st.index[st.stack[base]] <= st.index[x]
  {
    var p, n := PoppedFrom(st.stack, base), |st.stack|;
    forall i, j | 0 <= i < j < |p|
      ensures p[i] != p[j]
    {
      assert Later(st, st.stack[n - 1 - j], st.stack[n - 1 - i]);
    }
    forall x | x in p
      ensures x in st.stack && x !in st.stack[..base] && x in st.index
      ensures st.stack[base] in st.index && st.index[st.stack[base]] <= st.index[x]
    {
      var i :| 0 <= i < |p| && p[i] == x;
      var at := n - 1 - i;
      assert st.stack[at] == x;
      assert at > base ==> Later(st, st.stack[base], x);
      forall k | 0 <= k < base
        ensures st.stack[k] != x
      {
        assert Later(st, st.stack[k], st.stack[at]);
      }
    }
    forall x | x in st.stack
      ensures x in st.stack[..base] || x in p
    {
      var k :| 0 <= k < n && st.stack[k] == x;
      if k < base {
        assert st.stack[..base][k] == x;
      } else {
        assert p[n - 1 - k] == x;
      }
    }
  }

  /** Nothing stacked from node on leads outside that part and the emitted components. */
  lemma PoppedClosed(edges: Edges, st0: Search, st: Search, gray: set<Node>, node: Node, low: int)
    requires node in edges && Scanning(edges, st0, st, gray, node, low, |edges[node]|) && low == st0.next
    ensures var comp := PoppedFrom(st.stack, |st0.stack|);
            forall a, b :: a in comp && Edge(edges, a, b) ==> b in comp || b in Members(st.components)
  {
    hide Reach, Components, Anchored, GrayReaches, Attains, PoppedFrom;
    var base := |st0.stack|;
    PoppedFacts(st, base);
    NodeEdgesBounded(edges, st0, st, gray, node, low);
    GrayBelow(edges, st0, st, gray, node);
    forall a, b | a in PoppedFrom(st.stack, base) && Edge(edges, a, b)
      ensures b in PoppedFrom(st.stack, base) || b in Members(st.components)
    {
      assert a == node || a !in gray + {node};
      assert b in st.index;
      if b in st0.stack {
        BelowNode(edges, st0, st, gray, node, b);
      }
      assert st.stack[..base] == st0.stack;
    }
  }

  lemma GrayBelow(edges: Edges, st0: Search, st: Search, gray: set<Node>, node: Node)
    requires st0.stack + [node] <= st.stack && StackOrder(st)
    requires forall g :: g in gray ==> g in st0.stack
    ensures forall x :: x in PoppedFrom(st.stack, |st0.stack|) ==> x !in gray
  {
    PoppedFacts(st, |st0.stack|);
    assert st.stack[..|st0.stack|] == st0.stack;
  }

  /** All nodes popped together reach each other through node. */
  lemma PoppedMutual(edges: Edges, st0: Search, st: Search, gray: set<Node>, node: Node, a: Node)
    requires StackOrder(st) && st0.stack + [node] <= st.stack
    requires Anchored(edges, st, gray + {node}) && GrayReaches(edges, st, gray + {node})
    requires forall g :: g in gray ==> Reach(edges, g, node)
    requires a in PoppedFrom(st.stack, |st0.stack|)
    ensures Reach(edges, node, a) && Reach(edges, a, node)
  {
    PoppedFacts(st, |st0.stack|);
    hide Reach, PoppedFrom, StackOrder;
    assert st.stack[|st0.stack|] == node;
    assert node in gray + {node} && st.index[node] <= st.index[a];
    var g :| Anchor(edges, st, gray + {node}, a, g);
    if g != node {
      ReachTrans(edges, a, g, node);
    }
  }

  lemma PoppedIsComponent(edges: Edges, st0: Search, st: Search, gray: set<Node>, node: Node, low: int)
    requires node in edges && Scanning(edges, st0, st, gray, node, low, |edges[node]|) && low == st0.next
    ensures NextComponent(edges, Members(st.components), PoppedFrom(st.stack, |st0.stack|))
  {
    hide Reach, Anchored, GrayReaches, BlackDone, Attains, BoundsEdges, PoppedFrom;
    var comp, done := PoppedFrom(st.stack, |st0.stack|), Members(st.components);
    PoppedFacts(st, |st0.stack|);
    PoppedClosed(edges, st0, st, gray, node, low);
    MembersClosed(edges, st.components);
    var k := ToSet(comp) + done;
    assert EdgeClosed(edges, k);
    forall a, x | a in comp
      ensures x in comp <==> Mutual(edges, a, x)
    {
      PoppedMutual(edges, st0, st, gray, node, a);
      if x in comp {
        PoppedMutual(edges, st0, st, gray, node, x);
        ReachTrans(edges, a, node, x);
        ReachTrans(edges, x, node, a);
      }
      if Mutual(edges, a, x) {
        ReachStays(edges, k, a, x);
        if x in done {
          ReachStays(edges, done, x, a);
          assert false;
        }
      }
    }
  }

  lemma PopNumbered(edges: Edges, st0: Search, st: Search, node: Node)
    requires StackOrder(st) && Numbered(edges, st) && st0.stack + [node] <= st.stack
    ensures Numbered(edges, Pop(st, |st0.stack|))
  {
    var base := |st0.stack|;
    var comp, st' := PoppedFrom(st.stack, base), Pop(st, base);
    PoppedFacts(st, base);
    MembersAppend(st.components, comp);
    hide PoppedFrom, StackOrder, Members;
    assert st'.stack == st.stack[..base];
    forall n | n in st'.stack
      ensures n in st.index && n in st.stack && n !in Members(st'.components)
    {
      assert n in st.stack;
    }
    forall n | n in Members(st'.components)
      ensures n in st.index
    {
    }
    forall n | n in st.index
      ensures n in st'.stack || n in Members(st'.components)
    {
    }
  }

  lemma PopOrder(st: Search, base: nat)
    requires StackOrder(st) && base <= |st.stack|
    ensures StackOrder(Pop(st, base))
  {
    hide PoppedFrom;
    var st' := Pop(st, base);
    forall i, j | 0 <= i < j < |st'.stack|
      ensures Later(st', st'.stack[i], st'.stack[j])
    {
      assert Later(st, st.stack[i], st.stack[j]);
    }
  }

  lemma PopAnchored(edges: Edges, st0: Search, st: Search, gray: set<Node>, node: Node)
    requires StackOrder(st) && Anchored(edges, st, gray + {node}) && st0.stack + [node] <= st.stack
    ensures Anchored(edges, Pop(st, |st0.stack|), gray)
  {
    hide Reach, PoppedFrom;
    var st' := Pop(st, |st0.stack|);
    assert st'.stack == st0.stack;
    forall x | x in st'.stack && x in st'.index
      ensures exists g :: Anchor(edges, st', gray, x, g)
    {
      BelowNode(edges, st0, st, gray, node, x);
      assert x in st.stack;
      var g :| Anchor(edges, st, gray + {node}, x, g);
      assert Anchor(edges, st', gray, x, g);
    }
  }

  /** When node attained nothing lower, what is stacked from it on is a component, and it is emitted. */
  lemma ScanPops(edges: Edges, st0: Search, st: Search, gray: set<Node>, node: Node, low: int)
    requires node in edges && Scanning(edges, st0, st, gray, node, low, |edges[node]|) && low == st0.next
    ensures Explored(edges, st0, Pop(st, |st0.stack|), gray, node, low)
  {
    hide Reach, Components, Numbered, StackOrder, Anchored, BlackDone, BoundsEdges, PoppedFrom;
    var st' := Pop(st, |st0.stack|);
    PoppedIsComponent(edges, st0, st, gray, node, low);
    ComponentsAppend(edges, st.components, PoppedFrom(st.stack, |st0.stack|));
    PopNumbered(edges, st0, st, node);
    PopOrder(st, |st0.stack|);
    PopAnchored(edges, st0, st, gray, node);
    NodeEdgesBounded(edges, st0, st, gray, node, low);
    RetireBlackDone(edges, st, gray, node);
    SameIndexBlackDone(edges, st, st', gray);
    assert st'.stack == st0.stack;
    PopBounds(edges, st0, st', low);
    var x :| Attains(edges, st0, st, node, low, x);
    assert Attains(edges, st0, st', node, low, x);
    assert forall y :: y in st0.stack ==> y in st.stack;
  }

  lemma SameIndexBlackDone(edges: Edges, st: Search, st': Search, gray: set<Node>)
    requires BlackDone(edges, st, gray) && st'.index == st.index
    ensures BlackDone(edges, st', gray)
  {
  }

  lemma PopBounds(edges: Edges, st0: Search, st': Search, low: int)
    requires st'.stack == st0.stack
    ensures BoundsEdges(edges, st0, st', |st0.stack|, low)
  {
  }

  // --- The finder ---

  class SccFinder {
    const edges: Edges
    var nextIndex: int
    var index: map<Node, int>
    var low: map<Node, int>
    var stack: seq<Node>
    var onStack: set<Node>
    var components: seq<seq<Node>>

    constructor (edges: Edges)
      ensures this.edges == edges && Now() == Search(map[], 0, [], []) && Consistent()
    {
      this.edges := edges;
      nextIndex, index, low := 0, map[], map[];
      stack, onStack, components := [], {}, [];
    }

    ghost function Now(): Search
      reads this
    {
      Search(index, nextIndex, stack, components)
    }

    ghost predicate Consistent()
      reads this
    {
      onStack == ToSet(stack) && low.Keys == index.Keys
    }

    /** Visits a node not yet numbered; gray are the nodes whose visits are under way. */
    method Visit(node: Node, ghost gray: set<Node>)
      requires Visitable(edges, Now(), gray, node) && Consistent()
      modifies this
      ensures Consistent() && node in low
      ensures Explored(edges, old(Now()), Now(), gray, node, low[node])
      ensures forall n :: n in old(low) ==> n in low && low[n] == old(low)[n]
      decreases edges.Keys - index.Keys
    {
      hide Visitable, Scanning, Explored, Closed;
      ghost var st0 := Now();
      VisitableFacts(edges, st0, gray, node);
      index := index[node := nextIndex];
      low := low[node := nextIndex];
      nextIndex := nextIndex + 1;
      stack := stack + [node];
      onStack := onStack + {node};
      PushStartsScan(edges, st0, gray, node);
      var callees := edges[node];
      for i := 0 to |callees|
        invariant Consistent() && node in low
        invariant Scanning(edges, st0, Now(), gray, node, low[node], i)
        invariant forall n :: n in old(low) ==> n in low && low[n] == old(low)[n]
      {
        var callee := callees[i];
        ghost var st := Now();
        ScanFacts(edges, st0, st, gray, node, low[node], i);
        if callee !in index {
          ScanCanVisit(edges, st0, st, gray, node, low[node], i);
          Visit(callee, gray + {node});
          ScanVisited(edges, st0, st, Now(), gray, node, low[node], i, low[callee]);
          low := low[node := Min(low[node], low[callee])];
        } else if callee in onStack {
          ScanStacked(edges, st0, st, gray, node, low[node], i);
          low := low[node := Min(low[node], index[callee])];
        } else {
          ScanEmitted(edges, st0, st, gray, node, low[node], i);
        }
      }
      ScanFacts(edges, st0, Now(), gray, node, low[node], |callees|);
      if low[node] != index[node] {
        ScanRetires(edges, st0, Now(), gray, node, low[node]);
        return;
      }
      ScanPops(edges, st0, Now(), gray, node, low[node]);
      PopComponent(node, |st0.stack|);
    }

    /** Pops the stack down to node and emits what was popped. */
    method PopComponent(node: Node, ghost base: nat)
      requires Consistent() && StackOrder(Now()) && base < |stack| && stack[base] == node
      modifies this
      ensures Consistent() && Now() == Pop(old(Now()), base) && low == old(low)
    {
      ghost var full := stack;
      var component: seq<Node> := [];
      var more := true;
      while more
        invariant base <= |stack| <= |full| && stack == full[..|stack|]
        invariant more <==> |stack| > base
        invariant component == PoppedFrom(full, |stack|)
        invariant onStack == ToSet(stack)
        invariant index == old(index) && low == old(low) && nextIndex == old(nextIndex) && components == old(components)
        decreases |stack|
      {
        var member := stack[|stack| - 1];
        LastLeaves(old(Now()), |stack|, base);
        stack := stack[..|stack| - 1];
        onStack := onStack - {member};
        component := component + [member];
        more := member != node;
      }
      components := components + [component];
    }

    /** All components, callees' before callers'. */
    method Run(order: seq<Node>) returns (r: seq<seq<Node>>)
      requires Closed(edges) && forall n :: n in order <==> n in edges
      requires Consistent() && Now() == Search(map[], 0, [], [])
      modifies this
      ensures Components(edges, r) && Members(r) == edges.Keys
    {
      hide Closed, Inv, Explored;
      StartInv(edges);
      for i := 0 to |order|
        invariant Consistent() && Inv(edges, Now(), {}) && stack == [] && 0 <= nextIndex
        invariant forall k :: 0 <= k < i ==> order[k] in index
      {
        if order[i] !in index {
          ghost var st0 := Now();
          Visit(order[i], {});
          ExploredAlone(edges, st0, Now(), order[i], low[order[i]]);
        }
      }
      r := components;
      EmptyStackMembers(edges, Now());
    }
  }

  lemma VisitableFacts(edges: Edges, st: Search, gray: set<Node>, node: Node)
    requires Visitable(edges, st, gray, node)
    ensures node in edges && node !in st.index && 0 <= st.next && Closed(edges)
  {
    hide Closed, Inv;
  }

  lemma ScanFacts(edges: Edges, st0: Search, st: Search, gray: set<Node>, node: Node, low: int, i: nat)
    requires node in edges && Scanning(edges, st0, st, gray, node, low, i)
    ensures node in st.index && st.index[node] == st0.next && low <= st0.next && StackOrder(st)
    ensures 0 <= st0.next ==> 0 <= st.next
    ensures |st0.stack| < |st.stack| && st.stack[|st0.stack|] == node
    ensures forall n :: n in st0.index ==> n in st.index
    ensures node !in st0.index
  {
    hide Components, Numbered, Anchored, GrayReaches, BlackDone, Attains, BoundsEdges, Reach;
    assert st.stack[|st0.stack|] == (st0.stack + [node])[|st0.stack|];
  }

  lemma LastLeaves(st: Search, n: nat, base: nat)
    requires StackOrder(st) && base < n <= |st.stack|
    ensures st.stack[n - 1] == st.stack[base] <==> n - 1 == base
    ensures st.stack[..n][..n - 1] == st.stack[..n - 1]
    ensures ToSet(st.stack[..n]) - {st.stack[n - 1]} == ToSet(st.stack[..n - 1])
    ensures PoppedFrom(st.stack, n) + [st.stack[n - 1]] == PoppedFrom(st.stack, n - 1)
  {
    assert n - 1 > base ==> Later(st, st.stack[base], st.stack[n - 1]);
    assert st.stack[..n] == st.stack[..n - 1] + [st.stack[n - 1]];
    var rest := st.stack[..n - 1];
    forall x | x in rest
      ensures x != st.stack[n - 1]
    {
      var k :| 0 <= k < n - 1 && st.stack[k] == x;
      assert Later(st, st.stack[k], st.stack[n - 1]);
    }
  }

  lemma StartInv(edges: Edges)
    ensures Inv(edges, Search(map[], 0, [], []), {})
  {
  }

  lemma EmptyStackMembers(edges: Edges, st: Search)
    requires Inv(edges, st, {}) && st.stack == []
    ensures Members(st.components) == st.index.Keys && st.index.Keys <= edges.Keys && Components(edges, st.components)
  {
    hide Components, Members, Anchored, GrayReaches, BlackDone, StackOrder;
  }

  /** A visit that starts with nothing stacked leaves nothing stacked. */
  lemma ExploredAlone(edges: Edges, st0: Search, st: Search, node: Node, low: int)
    requires Explored(edges, st0, st, {}, node, low) && st0.stack == []
    ensures st.stack == [] && st0.next <= st.next && Inv(edges, st, {}) && node in st.index
    ensures forall n :: n in st0.index ==> n in st.index
  {
    hide Inv;
    var x :| Attains(edges, st0, st, node, low, x);
  }

  // --- What the component order means ---

  /** Every function lies in exactly one component, at one place. */
  lemma ComponentsPartition(edges: Edges, components: seq<seq<Node>>, n: Node) returns (k: nat)
    requires Components(edges, components) && n in Members(components)
    ensures k < |components| && n in components[k] && Distinct(components[k])
    ensures forall j :: 0 <= j < |components| && n in components[j] ==> j == k
  {
    k := MemberOf(components, n);
    assert NextComponent(edges, Members(components[..k]), components[k]);
    forall j | 0 <= j < |components| && n in components[j]
      ensures j == k
    {
      OneComponent(edges, components, j, k, n);
    }
  }

  lemma OneComponent(edges: Edges, components: seq<seq<Node>>, j: nat, k: nat, n: Node)
    requires Components(edges, components) && j < |components| && k < |components|
    requires n in components[j] && n in components[k]
    ensures j == k
  {
    assert NextComponent(edges, Members(components[..j]), components[j]);
    assert NextComponent(edges, Members(components[..k]), components[k]);
    if j < k {
      ComponentInMembers(components[..k], j, n);
    } else if k < j {
      ComponentInMembers(components[..j], k, n);
    }
  }

  /** Two functions share a component exactly when each reaches the other. */
  lemma SameComponentIffMutual(edges: Edges, components: seq<seq<Node>>, i: nat, j: nat, a: Node, b: Node)
    requires Components(edges, components) && i < |components| && j < |components|
    requires a in components[i] && b in components[j]
    ensures i == j <==> Mutual(edges, a, b)
  {
    assert NextComponent(edges, Members(components[..i]), components[i]);
    if Mutual(edges, a, b) {
      OneComponent(edges, components, i, j, b);
    }
  }

  /** A callee's component comes no later than its caller's, however deep the call chain. */
  lemma CalleesFirst(edges: Edges, components: seq<seq<Node>>, i: nat, j: nat, a: Node, b: Node)
    requires Components(edges, components) && i < |components| && j < |components|
    requires a in components[i] && b in components[j] && Reach(edges, a, b)
    ensures j <= i
  {
    var prefix := components[..i + 1];
    assert prefix[..i] == components[..i];
    forall k | 0 <= k < |prefix|
      ensures NextComponent(edges, Members(prefix[..k]), prefix[k])
    {
      assert prefix[..k] == components[..k];
    }
    MembersClosed(edges, prefix);
    ComponentInMembers(prefix, i, a);
    ReachStays(edges, Members(prefix), a, b);
    var k := MemberOf(prefix, b);
    OneComponent(edges, components, j, k, b);
  }
}
