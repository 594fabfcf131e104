/**
 When the numeric analysis converges. Its widening leaves single values and unknowns, and a
 widened variable falls from one to the other at most once, so the worklist drains.
 */
module IntervalDrain {
  import opened Int64
  import opened Ast
  import opened IntervalEval
  import opened FiniteSets
  import I = Intervals
  import D = Dataflow
  import Drain
  import W = WideningDrain
  import IA = IntervalAnalysis

  /** Every variable is known exactly or not at all. */
  predicate Flat(iv: IntervalMap) {
    forall d :: d in iv ==> iv[d] == I.Top || iv[d].Singleton().Some?
  }

  function Unknown(iv: IntervalMap): set<Decl> {
    set d | d in iv && iv[d] == I.Top
  }

  ghost function Steps(vars: set<Decl>): W.Ladder<IntervalMap> {
    W.Ladder(
      (iv: IntervalMap) => iv.Keys == vars,
      (iv: IntervalMap) => Flat(iv),
      (iv: IntervalMap) => |Unknown(iv)|,
      |vars|)
  }

  lemma WidenedFlat(iv: IntervalMap, vars: set<Decl>)
    requires iv.Keys == vars
    ensures Widened(iv).Keys == vars && Flat(Widened(iv)) && |Unknown(Widened(iv))| <= |vars|
  {
    CardinalityMonotone(Unknown(Widened(iv)), vars);
  }

  /** A single value joined with anything is that value or no single value at all. */
  lemma JoinWidens(a: Interval, s: Interval)
    requires a == I.Top || a.Singleton().Some?
    ensures var j := I.Join(a, s); j == a || (j.Singleton().None? && a != I.Top)
  {
  }

  /** The widened merge of a flat state with another is the same state, or one that knows less. */
  lemma WidenedMergeClimbs(a: IntervalMap, s: IntervalMap)
    requires Flat(a) && s.Keys == a.Keys
    ensures var w := Widened(Merged(a, s)); w == a || |Unknown(w)| > |Unknown(a)|
  {
    var w := Widened(Merged(a, s));
    forall d | d in a
      ensures d in w && (w[d] == a[d] || (w[d] == I.Top && a[d] != I.Top))
    {
      JoinWidens(a[d], s[d]);
      assert Merged(a, s)[d] == I.Join(a[d], s[d]);
    }
    if w != a {
      assert w.Keys == a.Keys;
      var d :| d in a && w[d] != a[d];
      assert d in Unknown(w) && d !in Unknown(a);
      assert Unknown(a) < Unknown(w);
      SmallerSet(Unknown(a), Unknown(w));
    }
  }

  lemma AssignedKeys(iv: IntervalMap, s: Stmt, vars: set<Decl>)
    requires iv.Keys == vars
    ensures Assigned(iv, s, vars, true).Keys == vars
  {
    if s.DeclStmt? {
      IA.AssignedDeclsKeys(iv, s.decls, vars, true);
    }
  }

  lemma HooksKeepKeys(cfg: IA.Flow, vars: set<Decl>, seeds: IntervalMap, flags: map<Decl, int64>, fatal: Stmt -> bool)
    ensures W.KeepsOk(cfg, IA.Hooks(vars, seeds, flags, fatal), Steps(vars))
  {
    forall iv: IntervalMap, s: Stmt | iv.Keys == vars
      ensures Assigned(iv, s, vars, true).Keys == vars
    {
      AssignedKeys(iv, s, vars);
    }
    forall iv: IntervalMap, cond: Expr, taken: bool | iv.Keys == vars
      ensures Refined(iv, cond, taken, vars, true).Keys == vars
    {
      RefinedReductive(iv, cond, taken, vars, true);
    }
  }

  /** The laws again, for the hooks. */
  lemma WidenLaws(vars: set<Decl>, seeds: IntervalMap, flags: map<Decl, int64>, fatal: Stmt -> bool, iv: IntervalMap)
    requires Steps(vars).ok(iv)
    ensures var an, l := IA.Hooks(vars, seeds, flags, fatal), Steps(vars);
            an.widen.Some? && l.flat(an.widen.value(iv)) && l.rank(an.widen.value(iv)) <= l.top
  {
    WidenedFlat(iv, vars);
  }

  lemma ClimbLaws(vars: set<Decl>, seeds: IntervalMap, flags: map<Decl, int64>, fatal: Stmt -> bool, a: IntervalMap, s: IntervalMap)
    requires Steps(vars).ok(a) && Steps(vars).flat(a) && Steps(vars).ok(s)
    ensures var an, l := IA.Hooks(vars, seeds, flags, fatal), Steps(vars);
            an.widen.Some? && var w := an.widen.value(an.merge(a, s)); w == a || l.rank(w) > l.rank(a)
  {
    WidenedMergeClimbs(a, s);
    hide Merged, Widened, Unknown;
  }

  /** The widening of the numeric analysis stabilises. */
  lemma IntervalsStabilise(cfg: IA.Flow, vars: set<Decl>, seeds: IntervalMap, flags: map<Decl, int64>, fatal: Stmt -> bool)
    ensures W.Stabilises(cfg, IA.Hooks(vars, seeds, flags, fatal), Steps(vars))
  {
    HooksKeepKeys(cfg, vars, seeds, flags, fatal);
    WidenLaws(vars, seeds, flags, fatal, map d | d in vars :: I.Top);
    hide IA.Hooks, Steps, W.KeepsOk;
    var an, l := IA.Hooks(vars, seeds, flags, fatal), Steps(vars);
    forall s: IntervalMap {:trigger an.widen.value(s)} | l.ok(s)
      ensures l.flat(an.widen.value(s)) && l.rank(an.widen.value(s)) <= l.top
    {
      WidenLaws(vars, seeds, flags, fatal, s);
    }
    forall a: IntervalMap, s: IntervalMap {:trigger an.merge(a, s)} | l.ok(a) && l.flat(a) && l.ok(s)
      ensures var w := an.widen.value(an.merge(a, s)); w == a || l.rank(w) > l.rank(a)
    {
      ClimbLaws(vars, seeds, flags, fatal, a, s);
    }
  }

  /**
   On any graph, the uncapped numeric analysis drains within one visit and, for every edge,
   latticeHeight + 3 + |vars| visits, latticeHeight being 2 * |vars| + 4.
   */
  lemma IntervalsDrain(cfg: IA.Flow, vars: set<Decl>, seeds: IntervalMap, flags: map<Decl, int64>, fatal: Stmt -> bool, limit: nat)
    requires limit >= 1 + Drain.EdgeBudget(cfg, 3 * |vars| + 6, |cfg.blocks|)
    ensures D.Iterate(cfg, IA.Hooks(vars, seeds, flags, fatal), D.Start(cfg), limit).worklist == []
  {
    IntervalsStabilise(cfg, vars, seeds, flags, fatal);
    hide IA.Hooks;
    HooksHeight(vars, seeds, flags, fatal);
    W.WideningDrainsFlat(cfg, IA.Hooks(vars, seeds, flags, fatal), Steps(vars), limit);
  }

  lemma HooksHeight(vars: set<Decl>, seeds: IntervalMap, flags: map<Decl, int64>, fatal: Stmt -> bool)
    ensures IA.Hooks(vars, seeds, flags, fatal).latticeHeight == 2 * |vars| + 4
  {
  }

  /** Computed from the graph and the number of variables alone. */
  predicate CapSuffices(cfg: IA.Flow, vars: set<Decl>) {
    W.CapCovers(cfg, 2 * |vars| + 4, |vars|, |cfg.blocks|)
  }

  lemma SmallConverges(cfg: IA.Flow, vars: set<Decl>, seeds: IntervalMap, flags: map<Decl, int64>, fatal: Stmt -> bool)
    requires CapSuffices(cfg, vars)
    ensures D.Solve(cfg, IA.Hooks(vars, seeds, flags, fatal)).converged
  {
    IntervalsStabilise(cfg, vars, seeds, flags, fatal);
    hide IA.Hooks;
    HooksHeight(vars, seeds, flags, fatal);
    W.WideningConvergesWithinCap(cfg, IA.Hooks(vars, seeds, flags, fatal), Steps(vars), |cfg.blocks|);
  }
}
