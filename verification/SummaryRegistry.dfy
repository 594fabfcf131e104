/** The registry's rebuild as the source runs it: call graph, components, sweeps. */
module SummaryRegistry {
  import opened Int64
  import opened Scc
  import opened SummarySolver

  /** edges is the call graph of the functions: calls to functions outside the unit are dropped. */
  ghost predicate IsCallGraph(edges: Edges, functions: seq<Node>, calls: map<Node, seq<Node>>) {
    && edges.Keys == ToSet(functions)
    && forall f, g :: Edge(edges, f, g) <==> f in functions && g in functions && f in calls && g in calls[f]
  }

  /** The known callees of one body, each once. */
  method KnownCallees(body: seq<Node>, known: set<Node>) returns (callees: seq<Node>)
    ensures Distinct(callees) && forall g :: g in callees <==> g in body && g in known
  {
    callees := [];
    for i := 0 to |body|
      invariant Distinct(callees) && forall g :: g in callees <==> g in body[..i] && g in known
    {
      if body[i] in known && body[i] !in callees {
        callees := callees + [body[i]];
      }
      assert body[..i + 1] == body[..i] + [body[i]];
    }
  }

  ghost predicate IsRow(callees: seq<Node>, f: Node, known: set<Node>, calls: map<Node, seq<Node>>) {
    forall g :: g in callees <==> g in known && f in calls && g in calls[f]
  }

  method BuildCallGraph(functions: seq<Node>, calls: map<Node, seq<Node>>) returns (order: seq<Node>, edges: Edges)
    ensures Distinct(order) && forall n :: n in order <==> n in edges
    ensures IsCallGraph(edges, functions, calls) && Closed(edges)
  {
    order := [];
    var known: set<Node> := {};
    for i := 0 to |functions|
      invariant Distinct(order) && known == ToSet(order)
      invariant forall n :: n in order <==> n in functions[..i]
    {
      if functions[i] !in known {
        known := known + {functions[i]};
        order := order + [functions[i]];
      }
      assert functions[..i + 1] == functions[..i] + [functions[i]];
    }
    assert functions[..|functions|] == functions;
    edges := map[];
    for i := 0 to |order|
      invariant edges.Keys == ToSet(order[..i])
      invariant forall f :: f in edges ==> IsRow(edges[f], f, known, calls)
    {
      var f := order[i];
      var callees := KnownCallees(if f in calls then calls[f] else [], known);
      assert IsRow(callees, f, known, calls);
      edges := edges[f := callees];
      assert order[..i + 1] == order[..i] + [f];
    }
    assert order[..|order|] == order;
    forall f, g
      ensures Edge(edges, f, g) <==> f in functions && g in functions && f in calls && g in calls[f]
    {
      assert f in edges ==> IsRow(edges[f], f, known, calls);
    }
  }

  method SweepOnce<T>(p: Problem<T>, component: seq<Node>, visible: Table<T>, ghost current: Table<T>, ghost previous: Table<T>)
    returns (next: Table<T>)
    requires visible == current + previous
    ensures next == Sweep(p, component, current, previous)
  {
    next := map[];
    for i := 0 to |component|
      invariant next.Keys == ToSet(component[..i])
      invariant forall n :: n in next ==> next[n] == Summary(p, n, visible)
    {
      next := next[component[i] := Summary(p, component[i], visible)];
      assert component[..i + 1] == component[..i] + [component[i]];
    }
    assert component[..|component|] == component;
  }

  /** Sweeps a recursive component until it stops changing; if it does not, keeps the first sweep. */
  method SolveRecursive<T(==)>(p: Problem<T>, component: seq<Node>, current: Table<T>) returns (r: Table<T>)
    requires Recursive(p.edges, component)
    ensures r == Solved(p, component, current)
  {
    hide Sweep, Recursive, MaxSweeps;
    var previous := Seeds(p, component);
    var conservativeFirst: Table<T>, converged := map[], false;
    var maxSweeps, sweep, visible := MaxSweeps(component), 0, current;
    ghost var target := Fixpoint(p, component, current);
    while sweep < maxSweeps && !converged
      invariant sweep <= maxSweeps && previous.Keys == ToSet(component)
      invariant visible + previous == current + previous
      invariant sweep > 0 ==> conservativeFirst == Sweep(p, component, current, Seeds(p, component))
      invariant sweep == 0 ==> previous == Seeds(p, component) && !converged
      invariant converged ==> target == Some(previous)
      invariant !converged ==> target == Sweeps(p, component, current, previous, maxSweeps - sweep)
      decreases maxSweeps - sweep, !converged
    {
      visible := visible + previous;
      var next := SweepOnce(p, component, visible, current, previous);
      SweepKeys(p, component, current, previous);
      if sweep == 0 {
        conservativeFirst := next;
      }
      converged := previous == next;
      VisibleUpdate(current, previous, next);
      previous := next;
      sweep := sweep + 1;
    }
    MaxSweepsPositive(component);
    r := if converged then previous else conservativeFirst;
  }

  lemma MaxSweepsPositive(component: seq<Node>)
    ensures MaxSweeps(component) > 0
  {
  }

  lemma VisibleUpdate<T>(current: Table<T>, previous: Table<T>, next: Table<T>)
    requires previous.Keys == next.Keys
    ensures current + previous + next == current + next
  {
  }

  lemma SingleSolved<T>(p: Problem<T>, component: seq<Node>, current: Table<T>)
    requires component != [] && !Recursive(p.edges, component)
    ensures Solved(p, component, current) == map[component[0] := Summary(p, component[0], current)]
  {
    assert component == [component[0]];
    assert current + map[] == current;
  }

  // --- Calls through function pointers ---

  type CallId = nat

  /** The unit's own summary first, then the cross-file store's. */
  function LookUp<T>(local: Table<T>, global: Table<T>, f: Node): Option<T> {
    if f in local then Some(local[f]) else if f in global then Some(global[f]) else None
  }

  /** The summaries of all targets joined in order; None when one has none, or there are no targets. */
  function Combined<T>(acc: Option<T>, targets: seq<Node>, local: Table<T>, global: Table<T>, join: (T, T) -> T): Option<T>
    decreases |targets|
  {
    if targets == [] then acc
    else match LookUp(local, global, targets[0])
      case None => None
      case Some(s) => Combined(Some(if acc.None? then s else join(acc.value, s)), targets[1..], local, global, join)
  }

  /** The summary of every call whose target set is closed and known. */
  function CallSummaries<T>(
    indirect: map<CallId, seq<Node>>, local: Table<T>, global: Table<T>, join: (T, T) -> T): map<CallId, T>
  {
    map call | call in indirect && Combined(None, indirect[call], local, global, join).Some? ::
      Combined(None, indirect[call], local, global, join).value
  }

  /** s is what is known of f: the unit's own summary if it has one, else the store's. */
  ghost predicate Known<T>(local: Table<T>, global: Table<T>, f: Node, s: T) {
    if f in local then s == local[f] else f in global && s == global[f]
  }

  /** The first value, joined with the others from left to right. */
  function Folded<T>(values: seq<T>, join: (T, T) -> T): T
    requires values != []
  {
    var n := |values| - 1;
    if n == 0 then values[0] else join(Folded(values[..n], join), values[n])
  }

  lemma {:induction false} CombinedFolds<T>(
    done: seq<T>, targets: seq<Node>, summaries: seq<T>, local: Table<T>, global: Table<T>, join: (T, T) -> T)
    requires |summaries| == |targets| && forall i :: 0 <= i < |targets| ==> Known(local, global, targets[i], summaries[i])
    requires done + summaries != []
    ensures Combined(if done == [] then None else Some(Folded(done, join)), targets, local, global, join) ==
              Some(Folded(done + summaries, join))
    decreases |targets|
  {
    var acc := if done == [] then None else Some(Folded(done, join));
    if targets == [] {
      assert done + summaries == done;
    } else {
      var s := summaries[0];
      var next := done + [s];
      assert Known(local, global, targets[0], s);
      assert LookUp(local, global, targets[0]) == Some(s);
      assert next[..|next| - 1] == done;
      assert done + summaries == next + summaries[1..];
      assert Folded(next, join) == if done == [] then s else join(Folded(done, join), s);
      CombinedFolds(next, targets[1..], summaries[1..], local, global, join);
    }
  }

  lemma {:induction false} UnknownTarget<T>(
    acc: Option<T>, targets: seq<Node>, local: Table<T>, global: Table<T>, join: (T, T) -> T, f: Node)
    requires f in targets && f !in local && f !in global
    ensures Combined(acc, targets, local, global, join).None?
    decreases |targets|
  {
    if targets[0] != f && LookUp(local, global, targets[0]).Some? {
      var s := LookUp(local, global, targets[0]).value;
      UnknownTarget(Some(if acc.None? then s else join(acc.value, s)), targets[1..], local, global, join, f);
    }
  }

  /**
   A call through a pointer has a summary exactly when it has targets and each of them has one;
   it is theirs joined in order, the unit's own summaries before the store's.
   */
  lemma CallSummaryExact<T>(
    indirect: map<CallId, seq<Node>>, local: Table<T>, global: Table<T>, join: (T, T) -> T, call: CallId, summaries: seq<T>)
    requires call in indirect
    ensures call in CallSummaries(indirect, local, global, join) <==>
              indirect[call] != [] && forall f :: f in indirect[call] ==> f in local || f in global
    ensures indirect[call] != [] && |summaries| == |indirect[call]| &&
            (forall i :: 0 <= i < |summaries| ==> Known(local, global, indirect[call][i], summaries[i])) ==>
              call in CallSummaries(indirect, local, global, join) &&
              CallSummaries(indirect, local, global, join)[call] == Folded(summaries, join)
  {
    var targets := indirect[call];
    if |summaries| == |targets| && forall i :: 0 <= i < |summaries| ==> Known(local, global, targets[i], summaries[i]) {
      forall f | f in targets
        ensures f in local || f in global
      {
        var i :| 0 <= i < |targets| && targets[i] == f;
        assert Known(local, global, targets[i], summaries[i]);
      }
    }
    if f :| f in targets && f !in local && f !in global {
      UnknownTarget(None, targets, local, global, join, f);
    } else if targets != [] {
      var known := seq(|targets|, i requires 0 <= i < |targets| => SummaryOf(local, global, targets, i));
      CombinedFolds([], targets, known, local, global, join);
      if |summaries| == |targets| && forall i :: 0 <= i < |summaries| ==> Known(local, global, targets[i], summaries[i]) {
        CombinedFolds([], targets, summaries, local, global, join);
        assert [] + summaries == summaries;
      }
    }
  }

  function SummaryOf<T>(local: Table<T>, global: Table<T>, targets: seq<Node>, i: nat): (s: T)
    requires i < |targets| && forall f :: f in targets ==> f in local || f in global
    ensures Known(local, global, targets[i], s)
  {
    if targets[i] in local then local[targets[i]] else global[targets[i]]
  }

  method CombineLoop<T>(targets: seq<Node>, local: Table<T>, global: Table<T>, join: (T, T) -> T) returns (r: Option<T>)
    ensures r == Combined(None, targets, local, global, join)
  {
    r := None;
    for i := 0 to |targets|
      invariant Combined(r, targets[i..], local, global, join) == Combined(None, targets, local, global, join)
    {
      assert targets[i..][0] == targets[i] && targets[i..][1..] == targets[i + 1..];
      var s := LookUp(local, global, targets[i]);
      if s.None? {
        return None;
      }
      r := Some(if r.None? then s.value else join(r.value, s.value));
    }
  }

  class Registry<T(==, !new)> {
    var summaries: Table<T>
    var callSummaries: map<CallId, T>
    var stable: bool

    constructor ()
      ensures summaries == map[] && callSummaries == map[] && !stable
    {
      summaries, callSummaries, stable := map[], map[], false;
    }

    method RebuildCalls(indirect: map<CallId, seq<Node>>, global: Table<T>, join: (T, T) -> T)
      modifies this`callSummaries
      ensures callSummaries == CallSummaries(indirect, summaries, global, join)
    {
      hide Combined;
      callSummaries := map[];
      ghost var want := CallSummaries(indirect, summaries, global, join);
      var todo := indirect.Keys;
      while todo != {}
        invariant todo <= indirect.Keys
        invariant forall call :: call in callSummaries <==> call in want && call !in todo
        invariant forall call :: call in callSummaries ==> callSummaries[call] == want[call]
        decreases |todo|
      {
        var call :| call in todo;
        todo := todo - {call};
        var s := CombineLoop(indirect[call], summaries, global, join);
        if s.Some? {
          callSummaries := callSummaries[call := s.value];
        }
      }
      assert callSummaries.Keys == want.Keys;
    }

    /**
     Computes the summaries of all functions, and of the calls through pointers. The result is
     the solution for every call graph and every component order of these functions, so it does
     not depend on the order of any of them.
     */
    method Rebuild(
      functions: seq<Node>, calls: map<Node, seq<Node>>, summarize: Summarizer<T>, unknown: T,
      indirect: map<CallId, seq<Node>>, global: Table<T>, join: (T, T) -> T)
      modifies this
      ensures stable && summaries.Keys == ToSet(functions)
      ensures callSummaries == CallSummaries(indirect, summaries, global, join)
      ensures forall edges, components {:trigger SolveAll(Problem(edges, summarize, unknown), components)} ::
                IsCallGraph(edges, functions, calls) && Components(edges, components) && Members(components) == edges.Keys ==>
                  summaries == SolveAll(Problem(edges, summarize, unknown), components)
    {
      hide SolveAll, Components, Solved, IsCallGraph, Closed, CallSummaries;
      stable := false;
      summaries := map[];
      callSummaries := map[];
      var order, edges := BuildCallGraph(functions, calls);
      var finder := new SccFinder(edges);
      var components := finder.Run(order);
      var p := Problem(edges, summarize, unknown);
      var current: Table<T> := map[];
      for k := 0 to |components|
        invariant current == SolveFirst(p, components, k)
      {
        var component := components[k];
        ComponentNonEmpty(edges, components, k);
        if !Recursive(edges, component) {
          SingleSolved(p, component, current);
          current := current[component[0] := Summary(p, component[0], current)];
        } else {
          var solved := SolveRecursive(p, component, current);
          current := current + solved;
        }
      }
      summaries := current;
      RebuildCalls(indirect, global, join);
      stable := true;
      RebuildExact(functions, calls, p, components, current);
    }
  }

  lemma ComponentNonEmpty(edges: Edges, components: seq<seq<Node>>, k: nat)
    requires Components(edges, components) && k < |components|
    ensures components[k] != []
  {
    assert NextComponent(edges, Members(components[..k]), components[k]);
  }

  lemma RebuildExact<T(!new)>(
    functions: seq<Node>, calls: map<Node, seq<Node>>, p: Problem<T>, components: seq<seq<Node>>, table: Table<T>)
    requires IsCallGraph(p.edges, functions, calls) && Components(p.edges, components)
    requires Members(components) == p.edges.Keys && table == SolveFirst(p, components, |components|)
    ensures table.Keys == ToSet(functions)
    ensures forall edges, cs {:trigger SolveAll(Problem(edges, p.summarize, p.unknown), cs)} ::
              IsCallGraph(edges, functions, calls) && Components(edges, cs) && Members(cs) == edges.Keys ==>
                table == SolveAll(Problem(edges, p.summarize, p.unknown), cs)
  {
    hide Components, Members, SolveFirst;
    SolveFirstKeys(p, components, |components|);
    assert components[..|components|] == components;
    forall edges, cs | IsCallGraph(edges, functions, calls) && Components(edges, cs) && Members(cs) == edges.Keys
      ensures table == SolveAll(Problem(edges, p.summarize, p.unknown), cs)
    {
      OrderIndependent(p, Problem(edges, p.summarize, p.unknown), components, cs);
    }
  }
}
