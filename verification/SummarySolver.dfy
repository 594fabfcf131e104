/** The component-by-component summary solver: SummaryRegistry::rebuild in src/engine/FunctionSummary.cpp. */
module SummarySolver {
  import opened Int64
  import opened Scc
  import Drain

  type Table<T> = map<Node, T>

  /** A summarizer sees a function and the summaries of the functions it calls. */
  type Summarizer<!T> = (Node, Table<T>) -> T

  /** A call graph, what computes a summary, and the seed summary of a recursive component. */
  datatype Problem<!T> = Problem(edges: Edges, summarize: Summarizer<T>, unknown: T)

  const MINIMUM_SCC_SWEEPS: nat := 16

  function Visible<T>(edges: Edges, f: Node, table: Table<T>): Table<T> {
    map g | f in edges && g in edges[f] && g in table :: table[g]
  }

  function Summary<T>(p: Problem<T>, f: Node, table: Table<T>): T {
    p.summarize(f, Visible(p.edges, f, table))
  }

  predicate Recursive(edges: Edges, component: seq<Node>) {
    |component| > 1 || (|component| == 1 && component[0] in edges && component[0] in edges[component[0]])
  }

  function MaxSweeps(component: seq<Node>): nat {
    var scaled := 4 * |component| + 4;
    if scaled < MINIMUM_SCC_SWEEPS then MINIMUM_SCC_SWEEPS else scaled
  }

  /** One synchronous sweep: every member against the same previous summaries. */
  function Sweep<T>(p: Problem<T>, component: seq<Node>, current: Table<T>, previous: Table<T>): Table<T> {
    map n | n in component :: Summary(p, n, current + previous)
  }

  /** Sweeps until nothing changes; None when the budget runs out first. */
  function Sweeps<T(==)>(p: Problem<T>, component: seq<Node>, current: Table<T>, previous: Table<T>, budget: nat): Option<Table<T>>
    decreases budget
  {
    if budget == 0 then None
    else
      var next := Sweep(p, component, current, previous);
      if next == previous then Some(next) else Sweeps(p, component, current, next, budget - 1)
  }

  function Seeds<T>(p: Problem<T>, component: seq<Node>): Table<T> {
    map n | n in component :: p.unknown
  }

  function Fixpoint<T(==)>(p: Problem<T>, component: seq<Node>, current: Table<T>): Option<Table<T>> {
    Sweeps(p, component, current, Seeds(p, component), MaxSweeps(component))
  }

  /**
   The summaries of one component, given those of the functions it calls outside itself: one
   evaluation, or sweeps to a fixed point, or the conservative first sweep.
   */
  function Solved<T(==)>(p: Problem<T>, component: seq<Node>, current: Table<T>): Table<T> {
    if !Recursive(p.edges, component) then Sweep(p, component, current, map[])
    else
      var fixed := Fixpoint(p, component, current);
      if fixed.Some? then fixed.value else Sweep(p, component, current, Seeds(p, component))
  }

  /** The table after the first n components have been solved in order. */
  function SolveFirst<T(==)>(p: Problem<T>, components: seq<seq<Node>>, n: nat): Table<T>
    requires n <= |components|
  {
    if n == 0 then map[]
    else
      var current := SolveFirst(p, components, n - 1);
      current + Solved(p, components[n - 1], current)
  }

  function SolveAll<T(==)>(p: Problem<T>, components: seq<seq<Node>>): Table<T> {
    SolveFirst(p, components, |components|)
  }

  // --- Where each summary of the final table comes from ---

  lemma SweepKeys<T>(p: Problem<T>, component: seq<Node>, current: Table<T>, previous: Table<T>)
    ensures Sweep(p, component, current, previous).Keys == ToSet(component)
  {
  }

  lemma {:induction false} SweepsFixed<T>(p: Problem<T>, component: seq<Node>, current: Table<T>, previous: Table<T>, budget: nat)
    ensures var r := Sweeps(p, component, current, previous, budget);
            r.Some? ==> r.value.Keys == ToSet(component) && r.value == Sweep(p, component, current, r.value)
    decreases budget
  {
    hide Sweep;
    if budget > 0 {
      var next := Sweep(p, component, current, previous);
      SweepKeys(p, component, current, previous);
      if next != previous {
        SweepsFixed(p, component, current, next, budget - 1);
      }
    }
  }

  lemma SolvedKeys<T>(p: Problem<T>, component: seq<Node>, current: Table<T>)
    ensures Solved(p, component, current).Keys == ToSet(component)
  {
    hide Sweep;
    SweepsFixed(p, component, current, Seeds(p, component), MaxSweeps(component));
    SweepKeys(p, component, current, map[]);
    SweepKeys(p, component, current, Seeds(p, component));
  }

  lemma {:induction false} SolveFirstKeys<T>(p: Problem<T>, components: seq<seq<Node>>, n: nat)
    requires n <= |components|
    ensures SolveFirst(p, components, n).Keys == Members(components[..n])
  {
    if n > 0 {
      SolveFirstKeys(p, components, n - 1);
      SolvedKeys(p, components[n - 1], SolveFirst(p, components, n - 1));
      assert components[..n][..n - 1] == components[..n - 1];
    }
  }

  lemma StepKeepsSolved<T>(p: Problem<T>, components: seq<seq<Node>>, n: nat, f: Node)
    requires Components(p.edges, components) && n < |components| && f in SolveFirst(p, components, n)
    ensures f in SolveFirst(p, components, n + 1)
    ensures SolveFirst(p, components, n + 1)[f] == SolveFirst(p, components, n)[f]
  {
    SolveFirstKeys(p, components, n);
    SolvedKeys(p, components[n], SolveFirst(p, components, n));
    assert NextComponent(p.edges, Members(components[..n]), components[n]);
    hide Solved, NextComponent;
    assert f !in ToSet(components[n]) by { NotInNext(p.edges, Members(components[..n]), components[n], f); }
  }

  lemma NotInNext(edges: Edges, earlier: set<Node>, component: seq<Node>, f: Node)
    requires NextComponent(edges, earlier, component) && f in earlier
    ensures f !in component
  {
  }

  /** Summaries are final once computed: later components do not touch them. */
  lemma {:induction false} SolvedStays<T>(p: Problem<T>, components: seq<seq<Node>>, k: nat, n: nat, f: Node)
    requires Components(p.edges, components) && k <= n <= |components| && f in Members(components[..k])
    ensures f in SolveFirst(p, components, n) && f in SolveFirst(p, components, k)
    ensures SolveFirst(p, components, n)[f] == SolveFirst(p, components, k)[f]
  {
    hide Components, Members, SolveFirst;
    SolveFirstKeys(p, components, k);
    if k < n {
      SolvedStays(p, components, k, n - 1, f);
      StepKeepsSolved(p, components, n - 1, f);
    }
  }

  /** The final table agrees with the solution of f's component at the time it was solved. */
  lemma SolvedAt<T>(p: Problem<T>, components: seq<seq<Node>>, k: nat, f: Node)
    requires Components(p.edges, components) && k < |components| && f in components[k]
    ensures var t, s := SolveAll(p, components), Solved(p, components[k], SolveFirst(p, components, k));
            f in t && f in s && t[f] == s[f]
  {
    SolvedKeys(p, components[k], SolveFirst(p, components, k));
    assert components[..k + 1][k] == components[k];
    ComponentInMembers(components[..k + 1], k, f);
    SolvedStays(p, components, k + 1, |components|, f);
  }

  /** When a component is solved, a callee outside it is final already. */
  lemma CalleeFinal<T>(p: Problem<T>, components: seq<seq<Node>>, k: nat, f: Node, g: Node)
    requires Components(p.edges, components) && k < |components| && f in components[k] && Edge(p.edges, f, g)
    ensures g !in components[k] ==>
              var t, current := SolveAll(p, components), SolveFirst(p, components, k);
              g in Members(components[..k]) && g in t && g in current && t[g] == current[g]
  {
    assert NextComponent(p.edges, Members(components[..k]), components[k]);
    if g !in components[k] {
      SolvedStays(p, components, k, |components|, g);
    }
  }

  // --- The solution satisfies its equations ---

  lemma SameVisible<T>(edges: Edges, f: Node, t: Table<T>, u: Table<T>)
    requires forall g :: Edge(edges, f, g) ==> (g in t <==> g in u) && (g in t ==> t[g] == u[g])
    ensures Visible(edges, f, t) == Visible(edges, f, u)
  {
    assert forall g :: f in edges && g in edges[f] ==> Edge(edges, f, g);
  }

  // --- The sweeps of a recursive component ---

  /** What the members see in one round: each other's summaries of the round before, and final ones outside. */
  ghost function Seen<T>(p: Problem<T>, component: seq<Node>, t: Table<T>, round: Table<T>, n: Node): Table<T> {
    map g | n in p.edges && g in p.edges[n] && (if g in component then g in round else g in t) ::
      if g in component then round[g] else t[g]
  }

  ghost function NextRound<T>(p: Problem<T>, component: seq<Node>, t: Table<T>, round: Table<T>): (r: Table<T>)
    ensures r.Keys == ToSet(component)
  {
    map n | n in component :: p.summarize(n, Seen(p, component, t, round, n))
  }

  /** The summaries of the members after j synchronous rounds from the unknown summary. */
  ghost function Round<T>(p: Problem<T>, component: seq<Node>, t: Table<T>, j: nat): (r: Table<T>)
    ensures r.Keys == ToSet(component)
  {
    if j == 0 then map n | n in component :: p.unknown else NextRound(p, component, t, Round(p, component, t, j - 1))
  }

  /** A component whose rounds stop changing in time: within sixteen, or four for every member and four more. */
  ghost predicate Settles<T>(p: Problem<T>, component: seq<Node>, t: Table<T>, j: nat) {
    && (j < 16 || j < 4 * |component| + 4)
    && Round(p, component, t, j + 1) == Round(p, component, t, j)
  }

  /** The table and the summaries computed so far agree on what the component calls outside itself. */
  ghost predicate AgreeOutside<T(!new)>(p: Problem<T>, component: seq<Node>, t: Table<T>, current: Table<T>) {
    forall f, g :: f in component && Edge(p.edges, f, g) && g !in component ==> g in t && g in current && t[g] == current[g]
  }

  lemma SeenIsVisible<T(!new)>(p: Problem<T>, component: seq<Node>, t: Table<T>, current: Table<T>, round: Table<T>, n: Node)
    requires AgreeOutside(p, component, t, current) && round.Keys == ToSet(component) && n in component
    ensures Seen(p, component, t, round, n) == Visible(p.edges, n, current + round)
  {
    assert forall g :: n in p.edges && g in p.edges[n] <==> Edge(p.edges, n, g);
    assert forall g :: g in component <==> g in round;
  }

  lemma RoundIsSweep<T(!new)>(p: Problem<T>, component: seq<Node>, t: Table<T>, current: Table<T>, j: nat)
    requires AgreeOutside(p, component, t, current)
    ensures Round(p, component, t, j + 1) == Sweep(p, component, current, Round(p, component, t, j))
  {
    hide AgreeOutside, Seen, Visible;
    var round := Round(p, component, t, j);
    forall n | n in component
      ensures Seen(p, component, t, round, n) == Visible(p.edges, n, current + round)
    {
      SeenIsVisible(p, component, t, current, round, n);
    }
    assert Round(p, component, t, j + 1) == NextRound(p, component, t, round);
  }

  lemma {:induction false} SettledStays<T>(p: Problem<T>, component: seq<Node>, t: Table<T>, j: nat, k: nat)
    requires j <= k && Round(p, component, t, j + 1) == Round(p, component, t, j)
    ensures Round(p, component, t, k) == Round(p, component, t, j)
    ensures Round(p, component, t, k + 1) == Round(p, component, t, k)
  {
    hide NextRound;
    if j < k {
      SettledStays(p, component, t, j, k - 1);
    }
  }

  /** The sweeps follow the rounds and stop at the first that repeats. */
  lemma {:induction false} SweepsFollow<T(!new)>(
    p: Problem<T>, component: seq<Node>, t: Table<T>, current: Table<T>, i: nat, budget: nat)
    requires AgreeOutside(p, component, t, current)
    ensures var r := Sweeps(p, component, current, Round(p, component, t, i), budget);
            && (r.None? ==> forall j: nat :: i <= j < i + budget ==> Round(p, component, t, j + 1) != Round(p, component, t, j))
            && (r.Some? ==> exists j: nat :: i <= j < i + budget && Round(p, component, t, j + 1) == Round(p, component, t, j) && r.value == Round(p, component, t, j))
    decreases budget
  {
    hide Sweep, Round, AgreeOutside;
    if budget > 0 {
      RoundIsSweep(p, component, t, current, i);
      if Round(p, component, t, i + 1) != Round(p, component, t, i) {
        SweepsFollow(p, component, t, current, i + 1, budget - 1);
      }
    }
  }

  lemma SeedsAreRound<T>(p: Problem<T>, component: seq<Node>, t: Table<T>)
    ensures Seeds(p, component) == Round(p, component, t, 0)
  {
  }

  lemma BudgetIs(component: seq<Node>)
    ensures MaxSweeps(component) == if |component| < 3 then 16 else 4 * |component| + 4
  {
  }

  lemma OutsideFinal<T(!new)>(p: Problem<T>, components: seq<seq<Node>>, k: nat)
    requires Components(p.edges, components) && k < |components|
    ensures AgreeOutside(p, components[k], SolveAll(p, components), SolveFirst(p, components, k))
  {
    hide SolveAll, Components, SolveFirst, Members;
    forall f, g | f in components[k] && Edge(p.edges, f, g) && g !in components[k]
      ensures var t, current := SolveAll(p, components), SolveFirst(p, components, k); g in t && g in current && t[g] == current[g]
    {
      CalleeFinal(p, components, k, f, g);
    }
  }

  /**
   A recursive component ends in the round that repeats when one does in time, and in its first
   round when none does.
   */
  lemma ComponentSettles<T(!new)>(p: Problem<T>, components: seq<seq<Node>>, k: nat, f: Node, j: nat)
    requires Components(p.edges, components) && k < |components| && f in components[k] && Recursive(p.edges, components[k])
    ensures var t, comp := SolveAll(p, components), components[k];
            && f in t
            && (Settles(p, comp, t, j) ==> t[f] == Round(p, comp, t, j)[f])
            && ((forall i: nat :: !Settles(p, comp, t, i)) ==> t[f] == Round(p, comp, t, 1)[f])
  {
    var t, comp, current := SolveAll(p, components), components[k], SolveFirst(p, components, k);
    SolvedAt(p, components, k, f);
    OutsideFinal(p, components, k);
    SeedsAreRound(p, comp, t);
    BudgetIs(comp);
    SweepsFollow(p, comp, t, current, 0, MaxSweeps(comp));
    RoundIsSweep(p, comp, t, current, 0);
    hide SolveAll, SolveFirst, Components, Recursive, Round, Sweep, MaxSweeps, Sweeps, AgreeOutside;
    var r := Fixpoint(p, comp, current);
    if r.Some? {
      var i: nat :| i < MaxSweeps(comp) && Round(p, comp, t, i + 1) == Round(p, comp, t, i) && r.value == Round(p, comp, t, i);
      assert Settles(p, comp, t, i);
      if Settles(p, comp, t, j) {
        if i <= j {
          SettledStays(p, comp, t, i, j);
        } else {
          SettledStays(p, comp, t, j, i);
        }
      }
    } else {
      assert Settles(p, comp, t, j) ==> j < MaxSweeps(comp);
    }
  }

  /**
   In the final table every function that is not recursive, or whose component's rounds stop
   changing in time, has exactly the summary computed from the final summaries of the
   functions it calls, all at once.
   */
  lemma TableIsFixedPoint<T(!new)>(p: Problem<T>, components: seq<seq<Node>>, k: nat, f: Node)
    requires Components(p.edges, components) && k < |components| && f in components[k]
    requires Recursive(p.edges, components[k]) ==> exists j: nat :: Settles(p, components[k], SolveAll(p, components), j)
    ensures var t := SolveAll(p, components); f in t && t[f] == Summary(p, f, t)
  {
    if Recursive(p.edges, components[k]) {
      SettledFixpoint(p, components, k);
    }
    FixpointTable(p, components, k, f);
  }

  lemma SettledFixpoint<T(!new)>(p: Problem<T>, components: seq<seq<Node>>, k: nat)
    requires Components(p.edges, components) && k < |components|
    requires exists j: nat :: Settles(p, components[k], SolveAll(p, components), j)
    ensures Fixpoint(p, components[k], SolveFirst(p, components, k)).Some?
  {
    var t, comp, current := SolveAll(p, components), components[k], SolveFirst(p, components, k);
    hide SolveAll, SolveFirst, Components, Round, Sweep, MaxSweeps, Sweeps, AgreeOutside;
    var j: nat :| Settles(p, comp, t, j);
    OutsideFinal(p, components, k);
    SeedsAreRound(p, comp, t);
    BudgetIs(comp);
    SweepsFollow(p, comp, t, current, 0, MaxSweeps(comp));
    assert j < MaxSweeps(comp);
  }

  lemma FixpointTable<T>(p: Problem<T>, components: seq<seq<Node>>, k: nat, f: Node)
    requires Components(p.edges, components) && k < |components| && f in components[k]
    requires Recursive(p.edges, components[k]) ==> Fixpoint(p, components[k], SolveFirst(p, components, k)).Some?
    ensures var t := SolveAll(p, components); f in t && t[f] == Summary(p, f, t)
  {
    hide SolveAll, Visible, Components;
    var t, current, comp := SolveAll(p, components), SolveFirst(p, components, k), components[k];
    var s := Solved(p, comp, current);
    SolvedKeys(p, comp, current);
    SolvedAt(p, components, k, f);
    SweepsFixed(p, comp, current, Seeds(p, comp), MaxSweeps(comp));
    var previous := if Recursive(p.edges, comp) then s else map[];
    assert s == Sweep(p, comp, current, previous);
    forall g | Edge(p.edges, f, g)
      ensures g in t && g in current + previous && t[g] == (current + previous)[g]
    {
      CalleeFinal(p, components, k, f, g);
      if g in comp {
        CalleeInside(p.edges, comp, f, g);
        SolvedAt(p, components, k, g);
      }
    }
    SameVisible(p.edges, f, t, current + previous);
  }

  // --- Components that settle ---

  ghost predicate TableLe<T(!new)>(le: (T, T) -> bool, a: Table<T>, b: Table<T>) {
    a.Keys == b.Keys && forall n :: n in a ==> le(a[n], b[n])
  }

  /** Seeing more never makes a summary say less, and the unknown summary says least. */
  ghost predicate MonotoneSummaries<T(!new)>(p: Problem<T>, le: (T, T) -> bool) {
    && Drain.PartialOrder(le) && (forall x {:trigger le(p.unknown, x)} :: le(p.unknown, x))
    && (forall n, a, b {:trigger p.summarize(n, a), p.summarize(n, b)} :: TableLe(le, a, b) ==> le(p.summarize(n, a), p.summarize(n, b)))
  }

  lemma NextRoundRises<T(!new)>(p: Problem<T>, le: (T, T) -> bool, component: seq<Node>, t: Table<T>, a: Table<T>, b: Table<T>)
    requires MonotoneSummaries(p, le) && TableLe(le, a, b)
    ensures TableLe(le, NextRound(p, component, t, a), NextRound(p, component, t, b))
  {
    forall n | n in component
      ensures le(p.summarize(n, Seen(p, component, t, a, n)), p.summarize(n, Seen(p, component, t, b, n)))
    {
      assert forall x :: le(x, x);
      assert TableLe(le, Seen(p, component, t, a, n), Seen(p, component, t, b, n));
    }
  }

  lemma {:induction false} RoundsRise<T(!new)>(p: Problem<T>, le: (T, T) -> bool, component: seq<Node>, t: Table<T>, j: nat)
    requires MonotoneSummaries(p, le)
    ensures TableLe(le, Round(p, component, t, j), Round(p, component, t, j + 1))
  {
    hide NextRound;
    if j > 0 {
      RoundsRise(p, le, component, t, j - 1);
      NextRoundRises(p, le, component, t, Round(p, component, t, j - 1), Round(p, component, t, j));
    } else {
      assert Round(p, component, t, 1).Keys == ToSet(component);
      hide TableLe, Round;
      SeedsLeast(p, le, component, t);
    }
  }

  lemma SeedsLeast<T(!new)>(p: Problem<T>, le: (T, T) -> bool, component: seq<Node>, t: Table<T>)
    requires MonotoneSummaries(p, le)
    ensures TableLe(le, Round(p, component, t, 0), Round(p, component, t, 1))
  {
    hide NextRound;
  }

  /** Every round that changes something climbs. */
  lemma {:induction false} RoundsClimb<T(!new)>(p: Problem<T>, le: (T, T) -> bool, h: nat, component: seq<Node>, t: Table<T>, j: nat)
    requires MonotoneSummaries(p, le) && Drain.HeightBound(le, h)
    requires forall i: nat :: i < j ==> Round(p, component, t, i + 1) != Round(p, component, t, i)
    ensures Drain.RankSum(le, h, ToSet(component), Round(p, component, t, j)) >= j
  {
    hide MonotoneSummaries, Drain.HeightBound, Round;
    if j > 0 {
      RoundsClimb(p, le, h, component, t, j - 1);
      RoundsRise(p, le, component, t, j - 1);
      var a, b := Round(p, component, t, j - 1), Round(p, component, t, j);
      assert a != b;
      Drain.RankSumRises(le, h, ToSet(component), a, b);
      assert exists n :: n in ToSet(component) && a[n] != b[n];
    }
  }

  lemma {:induction false} ToSetSize(component: seq<Node>)
    ensures |ToSet(component)| <= |component|
  {
    if component != [] {
      var n := |component| - 1;
      ToSetSize(component[..n]);
      assert ToSet(component) == ToSet(component[..n]) + {component[n]};
    }
  }

  /** Over an order in which no summary can rise more than four times, every component settles. */
  lemma MonotoneSettles<T(!new)>(p: Problem<T>, le: (T, T) -> bool, component: seq<Node>, t: Table<T>)
    requires MonotoneSummaries(p, le) && Drain.HeightBound(le, 4)
    ensures exists j: nat :: Settles(p, component, t, j)
  {
    var last := 4 * |component| + 1;
    hide MonotoneSummaries, Round, Drain.HeightBound;
    if forall i: nat :: i < last ==> Round(p, component, t, i + 1) != Round(p, component, t, i) {
      RoundsClimb(p, le, 4, component, t, last);
      Drain.RankSumBounded(le, 4, ToSet(component), Round(p, component, t, last));
      ToSetSize(component);
    } else {
      var i: nat :| i < last && Round(p, component, t, i + 1) == Round(p, component, t, i);
      assert Settles(p, component, t, i);
    }
  }

  lemma CalleeInside(edges: Edges, component: seq<Node>, f: Node, g: Node)
    requires f in component && g in component && Edge(edges, f, g)
    ensures Recursive(edges, component)
  {
    if |component| <= 1 {
      assert component == [f];
    }
  }

  // --- The table does not depend on any enumeration order ---

  /** The same functions with the same calls, whatever order each call list is in. */
  ghost predicate SameGraph(e1: Edges, e2: Edges) {
    e1.Keys == e2.Keys && forall a, b :: Edge(e1, a, b) <==> Edge(e2, a, b)
  }

  lemma SameReach(e1: Edges, e2: Edges, a: Node, b: Node)
    requires SameGraph(e1, e2) && Reach(e1, a, b)
    ensures Reach(e2, a, b)
  {
    var path :| IsPath(e1, path, a, b);
    assert IsPath(e2, path, a, b);
  }

  lemma {:induction false} DistinctSize(s: seq<Node>)
    requires Distinct(s)
    ensures |ToSet(s)| == |s|
  {
    if s != [] {
      var init, last := s[..|s| - 1], s[|s| - 1];
      DistinctSize(init);
      assert last !in ToSet(init);
      assert ToSet(s) == ToSet(init) + {last};
    }
  }

  /** In two orders of the same graph, the components of one function have the same members. */
  lemma SameComponent(e1: Edges, e2: Edges, earlier1: set<Node>, earlier2: set<Node>, c1: seq<Node>, c2: seq<Node>, f: Node)
    requires SameGraph(e1, e2) && f in c1 && f in c2
    requires NextComponent(e1, earlier1, c1) && NextComponent(e2, earlier2, c2)
    ensures ToSet(c1) == ToSet(c2) && |c1| == |c2|
  {
    hide Reach;
    forall x
      ensures x in c1 <==> x in c2
    {
      if x in c1 {
        assert Mutual(e1, f, x);
        SameReach(e1, e2, f, x);
        SameReach(e1, e2, x, f);
        assert Mutual(e2, f, x);
      }
      if x in c2 {
        assert Mutual(e2, f, x);
        SameReach(e2, e1, f, x);
        SameReach(e2, e1, x, f);
        assert Mutual(e1, f, x);
      }
    }
    DistinctSize(c1);
    DistinctSize(c2);
  }

  /** Two ways of presenting one component, with tables that agree on the functions it calls outside itself. */
  ghost predicate Matching<T(!new)>(
    p1: Problem<T>, p2: Problem<T>, c1: seq<Node>, c2: seq<Node>, cur1: Table<T>, cur2: Table<T>)
  {
    && SameGraph(p1.edges, p2.edges) && p1.summarize == p2.summarize && p1.unknown == p2.unknown
    && ToSet(c1) == ToSet(c2) && |c1| == |c2|
    && forall f, g :: f in c1 && Edge(p1.edges, f, g) && g !in c1 ==> g in cur1 && g in cur2 && cur1[g] == cur2[g]
  }

  lemma SweepMatches<T(!new)>(
    p1: Problem<T>, p2: Problem<T>, c1: seq<Node>, c2: seq<Node>, cur1: Table<T>, cur2: Table<T>, previous: Table<T>)
    requires Matching(p1, p2, c1, c2, cur1, cur2)
    requires forall f, g :: f in c1 && g in c1 && Edge(p1.edges, f, g) ==> g in previous
    ensures Sweep(p1, c1, cur1, previous) == Sweep(p2, c2, cur2, previous)
  {
    assert forall n :: n in c1 <==> n in ToSet(c1);
    assert forall n :: n in c2 <==> n in ToSet(c2);
    forall n | n in c1
      ensures Visible(p1.edges, n, cur1 + previous) == Visible(p2.edges, n, cur2 + previous)
    {
      VisibleMatches(p1.edges, p2.edges, n, cur1 + previous, cur2 + previous);
    }
  }

  lemma VisibleMatches<T>(e1: Edges, e2: Edges, f: Node, t: Table<T>, u: Table<T>)
    requires SameGraph(e1, e2) && forall g :: Edge(e1, f, g) ==> g in t && g in u && t[g] == u[g]
    ensures Visible(e1, f, t) == Visible(e2, f, u)
  {
    assert forall g :: f in e1 && g in e1[f] <==> Edge(e1, f, g);
    assert forall g :: f in e2 && g in e2[f] <==> Edge(e2, f, g);
  }

  lemma {:induction false} SweepsMatch<T(!new)>(
    p1: Problem<T>, p2: Problem<T>, c1: seq<Node>, c2: seq<Node>, cur1: Table<T>, cur2: Table<T>, previous: Table<T>, budget: nat)
    requires Matching(p1, p2, c1, c2, cur1, cur2) && previous.Keys == ToSet(c1)
    ensures Sweeps(p1, c1, cur1, previous, budget) == Sweeps(p2, c2, cur2, previous, budget)
    decreases budget
  {
    hide Matching, Sweep;
    if budget > 0 {
      SweepMatches(p1, p2, c1, c2, cur1, cur2, previous);
      var next := Sweep(p1, c1, cur1, previous);
      SweepKeys(p1, c1, cur1, previous);
      if next != previous {
        SweepsMatch(p1, p2, c1, c2, cur1, cur2, next, budget - 1);
      }
    }
  }

  lemma RecursiveMatches<T(!new)>(
    p1: Problem<T>, p2: Problem<T>, c1: seq<Node>, c2: seq<Node>, cur1: Table<T>, cur2: Table<T>)
    requires Matching(p1, p2, c1, c2, cur1, cur2)
    ensures Recursive(p1.edges, c1) == Recursive(p2.edges, c2)
    ensures MaxSweeps(c1) == MaxSweeps(c2) && Seeds(p1, c1) == Seeds(p2, c2)
    ensures !Recursive(p1.edges, c1) ==> forall f, g :: f in c1 && g in c1 ==> !Edge(p1.edges, f, g)
  {
    assert forall n :: n in c1 <==> n in ToSet(c1);
    assert forall n :: n in c2 <==> n in ToSet(c2);
    if |c1| == 1 {
      assert c1[0] in ToSet(c1) && c2[0] in ToSet(c2);
      assert c1[0] == c2[0];
      assert Edge(p1.edges, c1[0], c1[0]) == Edge(p2.edges, c2[0], c2[0]);
    }
    if !Recursive(p1.edges, c1) {
      forall f, g | f in c1 && g in c1
        ensures !Edge(p1.edges, f, g)
      {
        assert f == c1[0] && g == c1[0];
      }
    }
  }

  /** A component's solution depends only on its members and on the summaries it calls outside itself. */
  lemma SolvedMatches<T(!new)>(
    p1: Problem<T>, p2: Problem<T>, c1: seq<Node>, c2: seq<Node>, cur1: Table<T>, cur2: Table<T>)
    requires Matching(p1, p2, c1, c2, cur1, cur2)
    ensures Solved(p1, c1, cur1) == Solved(p2, c2, cur2)
  {
    RecursiveMatches(p1, p2, c1, c2, cur1, cur2);
    hide Matching, Sweep, Recursive, MaxSweeps;
    var seeds := Seeds(p1, c1);
    if Recursive(p1.edges, c1) {
      SweepsMatch(p1, p2, c1, c2, cur1, cur2, seeds, MaxSweeps(c1));
      SweepMatches(p1, p2, c1, c2, cur1, cur2, seeds);
    } else {
      SweepMatches(p1, p2, c1, c2, cur1, cur2, map[]);
    }
  }

  /** Two emission orders of one graph. */
  ghost predicate TwoOrders<T(!new)>(p1: Problem<T>, p2: Problem<T>, cs1: seq<seq<Node>>, cs2: seq<seq<Node>>) {
    && SameGraph(p1.edges, p2.edges) && p1.summarize == p2.summarize && p1.unknown == p2.unknown
    && Components(p1.edges, cs1) && Components(p2.edges, cs2)
    && Members(cs1) == Members(cs2)
  }

  /** The tables agree at f when they agree on all earlier components of the first order. */
  lemma AgreeAt<T(!new)>(p1: Problem<T>, p2: Problem<T>, cs1: seq<seq<Node>>, cs2: seq<seq<Node>>, k: nat, f: Node)
    requires TwoOrders(p1, p2, cs1, cs2) && k < |cs1| && f in cs1[k]
    requires forall g :: g in Members(cs1[..k]) ==>
               g in SolveAll(p1, cs1) && g in SolveAll(p2, cs2) && SolveAll(p1, cs1)[g] == SolveAll(p2, cs2)[g]
    ensures f in SolveAll(p1, cs1) && f in SolveAll(p2, cs2) && SolveAll(p1, cs1)[f] == SolveAll(p2, cs2)[f]
  {
    ComponentInMembers(cs1, k, f);
    var j := MemberOf(cs2, f);
    assert NextComponent(p1.edges, Members(cs1[..k]), cs1[k]);
    assert NextComponent(p2.edges, Members(cs2[..j]), cs2[j]);
    SameComponent(p1.edges, p2.edges, Members(cs1[..k]), Members(cs2[..j]), cs1[k], cs2[j], f);
    hide Components, NextComponent, Members, SolveAll, SolveFirst, Solved;
    var cur1, cur2 := SolveFirst(p1, cs1, k), SolveFirst(p2, cs2, j);
    forall a, g | a in cs1[k] && Edge(p1.edges, a, g) && g !in cs1[k]
      ensures g in cur1 && g in cur2 && cur1[g] == cur2[g]
    {
      assert a in ToSet(cs2[j]) && g !in ToSet(cs2[j]);
      CalleeFinal(p1, cs1, k, a, g);
      CalleeFinal(p2, cs2, j, a, g);
    }
    SolvedMatches(p1, p2, cs1[k], cs2[j], cur1, cur2);
    SolvedAt(p1, cs1, k, f);
    SolvedAt(p2, cs2, j, f);
  }

  lemma {:induction false} AgreeUpTo<T(!new)>(p1: Problem<T>, p2: Problem<T>, cs1: seq<seq<Node>>, cs2: seq<seq<Node>>, k: nat)
    requires TwoOrders(p1, p2, cs1, cs2) && k <= |cs1|
    ensures forall g :: g in Members(cs1[..k]) ==>
               g in SolveAll(p1, cs1) && g in SolveAll(p2, cs2) && SolveAll(p1, cs1)[g] == SolveAll(p2, cs2)[g]
  {
    if k > 0 {
      AgreeUpTo(p1, p2, cs1, cs2, k - 1);
      forall f | f in cs1[k - 1]
        ensures f in SolveAll(p1, cs1) && f in SolveAll(p2, cs2) && SolveAll(p1, cs1)[f] == SolveAll(p2, cs2)[f]
      {
        AgreeAt(p1, p2, cs1, cs2, k - 1, f);
      }
      MembersAppend(cs1[..k - 1], cs1[k - 1]);
      assert cs1[..k] == cs1[..k - 1] + [cs1[k - 1]];
    }
  }

  /**
   The final table is the same for every order of the functions, of the calls of each
   function, and of the components, including components that fall back to their first sweep.
   */
  lemma OrderIndependent<T(!new)>(p1: Problem<T>, p2: Problem<T>, cs1: seq<seq<Node>>, cs2: seq<seq<Node>>)
    requires TwoOrders(p1, p2, cs1, cs2)
    ensures SolveAll(p1, cs1) == SolveAll(p2, cs2)
  {
    SolveFirstKeys(p1, cs1, |cs1|);
    SolveFirstKeys(p2, cs2, |cs2|);
    assert cs1[..|cs1|] == cs1 && cs2[..|cs2|] == cs2;
    AgreeUpTo(p1, p2, cs1, cs2, |cs1|);
  }
}
