/**
 The numeric analysis of src/engine/IntervalAnalysis.h run by the engine, with the condition
 stripping of DataflowEngine.h and the flag pruning of ImmutableFlags.cpp.
 */
module IntervalAnalysis {
  import opened Int64
  import opened Ast
  import opened IntervalEval
  import I = Intervals
  import D = Dataflow
  import DataflowSoundness
  import Engine = DataflowEngine

  type Flow = D.Graph<Stmt, Expr>

  // --- The condition a block's branch tests ---

  /** Wrappers around a branch condition carry only polarity; the core and the accumulated flip remain. */
  function EdgeCondition(e: Expr, flip: bool): (Expr, bool) {
    match e
    case Paren(s) => EdgeCondition(s, flip)
    case ImpCast(_, s) => EdgeCondition(s, flip)
    case BoolCast(s) => EdgeCondition(s, flip)
    case SameTypeCast(s) => EdgeCondition(s, flip)
    case Expect(s) => EdgeCondition(s, flip)
    case Not(s) => EdgeCondition(s, !flip)
    case Comma(_, r) => EdgeCondition(r, flip)
    case _ => (e, flip)
  }

  /** Branching on the condition is branching on its core, the other way round when flipped. */
  lemma {:induction false} EdgeConditionSound(e: Expr, flip: bool, env: Store, v: int)
    requires Faithful(e, env) && Evals(e, env, v)
    ensures var (core, flipped) := EdgeCondition(e, flip);
            Faithful(core, env) && Branches(core, env, (v != 0) != (flip != flipped))
  {
    match e
    case Paren(s) => EdgeConditionSound(s, flip, env, v);
    case ImpCast(k, s) =>
      if k.Integral? {
        var w :| Evals(s, env, w) && v == Wrap(k.to, w);
        assert k.to.width > 0;
        WrapRange(k.to, w);
        EdgeConditionSound(s, flip, env, w);
      } else {
        EdgeConditionSound(s, flip, env, v);
      }
    case BoolCast(s) =>
      var w :| Evals(s, env, w) && v == Truth(w != 0);
      EdgeConditionSound(s, flip, env, w);
    case SameTypeCast(s) => EdgeConditionSound(s, flip, env, v);
    case Expect(s) => EdgeConditionSound(s, flip, env, v);
    case Not(s) =>
      var w :| Evals(s, env, w) && v == Truth(w == 0);
      EdgeConditionSound(s, !flip, env, w);
    case Comma(_, r) => EdgeConditionSound(r, flip, env, v);
    case _ =>
  }

  // --- Edges that contradict an immutable flag ---

  function FlagValue(flags: map<Decl, int64>, e: Expr): Option<int64> {
    var core := IgnoreParenImpCasts(e);
    if core.VarRef? && core.decl in flags then Some(flags[core.decl]) else None
  }

  function FlagComparison(flags: map<Decl, int64>, op: CmpOp, flag: Expr, constant: Expr): Option<bool> {
    var f, c := FlagValue(flags, flag), ConstEval(constant);
    if f.None? || c.None? || !Fits(c.value) then None
    else Some(if op == EQ then f.value as int == c.value else f.value as int != c.value)
  }

  predicate InfeasibleByFlags(flags: map<Decl, int64>, cond: Expr, isTrue: bool) {
    var core := IgnoreParenImpCasts(cond);
    if FlagValue(flags, core).Some? then (FlagValue(flags, core).value != 0) != isTrue
    else if core.Compare? && (core.cmp == EQ || core.cmp == NE) then
      var left := FlagComparison(flags, core.cmp, core.lhs, core.rhs);
      var right := FlagComparison(flags, core.cmp, core.rhs, core.lhs);
      if left.Some? then left.value != isTrue
      else if right.Some? then right.value != isTrue
      else false
    else false
  }

  predicate FlagsHold(flags: map<Decl, int64>, env: Store) {
    forall d :: d in flags && d in env ==> env[d] == flags[d] as int
  }

  lemma FlagValueSound(flags: map<Decl, int64>, e: Expr, env: Store, v: int)
    requires FlagsHold(flags, env) && Faithful(e, env) && Evals(e, env, v) && FlagValue(flags, e).Some?
    ensures v == FlagValue(flags, e).value as int
  {
    StrippingKeepsValue(e, env, v);
  }

  /** An edge pruned by a flag is one no store with those flag values can take. */
  lemma FlagPruningSound(flags: map<Decl, int64>, cond: Expr, isTrue: bool, env: Store)
    requires FlagsHold(flags, env) && Faithful(cond, env) && Branches(cond, env, isTrue)
    ensures !InfeasibleByFlags(flags, cond, isTrue)
  {
    var v :| Evals(cond, env, v) && (v != 0) == isTrue;
    var core := IgnoreParenImpCasts(cond);
    StrippingKeepsValue(cond, env, v);
    StrippingKeepsFaithful(cond, env);
    if FlagValue(flags, core).Some? {
      FlagValueSound(flags, core, env, v);
    } else if core.Compare? {
      var x, y :| Evals(core.lhs, env, x) && Evals(core.rhs, env, y) && v == Truth(Relates(core.cmp, x, y));
      FlagComparisonSound(flags, core.cmp, core.lhs, core.rhs, env, x, y);
      FlagComparisonSound(flags, core.cmp, core.rhs, core.lhs, env, y, x);
    }
  }

  lemma FlagComparisonSound(flags: map<Decl, int64>, op: CmpOp, flag: Expr, constant: Expr, env: Store, x: int, y: int)
    requires FlagsHold(flags, env) && Faithful(flag, env) && Evals(flag, env, x) && Evals(constant, env, y)
    ensures (op == EQ || op == NE) && FlagComparison(flags, op, flag, constant).Some? ==>
              FlagComparison(flags, op, flag, constant).value == Relates(op, x, y)
  {
    if FlagComparison(flags, op, flag, constant).Some? {
      FlagValueSound(flags, flag, env, x);
      ConstEvalSound(constant, env, y);
    }
  }

  // --- The analysis ---

  function InitialState(vars: set<Decl>, seeds: IntervalMap): IntervalMap {
    map v | v in vars :: if v in seeds then seeds[v] else I.Top
  }

  /** The hooks IntervalAnalysis gives the engine; fatal calls and flags come from the surrounding tool. */
  function Hooks(vars: set<Decl>, seeds: IntervalMap, flags: map<Decl, int64>, fatal: Stmt -> bool)
    : D.Analysis<IntervalMap, Stmt, Expr>
  {
    D.Analysis(
      InitialState(vars, seeds),
      (a: IntervalMap, b: IntervalMap) => Merged(a, b),
      (s: Stmt, iv: IntervalMap) => iv,
      (s: Stmt, iv: IntervalMap) => Assigned(iv, s, vars, true),
      Some((cond: Expr, taken: bool, iv: IntervalMap) => Refined(iv, cond, taken, vars, true)),
      Some((iv: IntervalMap) => Widened(iv)),
      2 * |vars| + 4,
      (cond: Expr) => EdgeCondition(cond, false),
      (cond: Expr, taken: bool) => InfeasibleByFlags(flags, cond, taken),
      fatal)
  }

  /** Statements the transfer is sound for; a fatal call does not return. */
  predicate Covered(s: Stmt, vars: set<Decl>, fatal: Stmt -> bool) {
    SignedLiteralsInStmt(s) && Seedable(s, vars) && !fatal(s)
  }

  ghost predicate TakesBranch(flags: map<Decl, int64>, cond: Expr, taken: bool, env: Store) {
    WellTyped(env) && FlagsHold(flags, env) && Faithful(cond, env) && Branches(cond, env, taken)
  }

  ghost function StoreMeaning(vars: set<Decl>, flags: map<Decl, int64>, fatal: Stmt -> bool)
    : DataflowSoundness.Meaning<IntervalMap, Store, Stmt, Expr>
  {
    DataflowSoundness.Meaning(
      (iv: IntervalMap) => iv.Keys == vars,
      (iv: IntervalMap, env: Store) => WellTyped(env) && Describes(iv, env),
      (s: Stmt, env: Store, env': Store) => Covered(s, vars, fatal) && Step(s, env, env'),
      (cond: Expr, taken: bool, env: Store) => TakesBranch(flags, cond, taken, env))
  }

  /** The interval operations satisfy every local law the engine theorem asks for. */
  lemma IntervalsLocallySound(vars: set<Decl>, seeds: IntervalMap, flags: map<Decl, int64>, fatal: Stmt -> bool)
    ensures DataflowSoundness.LocallySound(Hooks(vars, seeds, flags, fatal), StoreMeaning(vars, flags, fatal))
  {
    var an, m := Hooks(vars, seeds, flags, fatal), StoreMeaning(vars, flags, fatal);
    MergeLaws(vars, seeds, flags, fatal);
    TransferLaws(vars, seeds, flags, fatal);
    RefineLawsHold(vars, seeds, flags, fatal);
    WidenLaws(vars, seeds, flags, fatal);
    BranchLaws(vars, seeds, flags, fatal);
  }

  lemma MergeLaws(vars: set<Decl>, seeds: IntervalMap, flags: map<Decl, int64>, fatal: Stmt -> bool)
    ensures var an, m := Hooks(vars, seeds, flags, fatal), StoreMeaning(vars, flags, fatal);
            forall a, b, env {:trigger m.gamma(an.merge(a, b), env)} ::
              m.ok(a) && m.ok(b) && (m.gamma(a, env) || m.gamma(b, env)) ==> m.gamma(an.merge(a, b), env)
  {
    forall a: IntervalMap, b: IntervalMap, env: Store |
      a.Keys == vars && b.Keys == vars && WellTyped(env) && (Describes(a, env) || Describes(b, env))
      ensures Describes(Merged(a, b), env)
    {
      MergedSound(a, b, env);
    }
  }

  lemma {:induction false} AssignedDeclsKeys(iv: IntervalMap, decls: seq<Init>, vars: set<Decl>, hasCtx: bool)
    requires iv.Keys == vars
    ensures AssignedDecls(iv, decls, vars, hasCtx).Keys == vars
    decreases |decls|
  {
    if decls != [] {
      var i := if decls[0].init.Some? then EvalInterval(decls[0].init.value, iv, hasCtx) else I.Top;
      AssignedDeclsKeys(Put(iv, decls[0].decl, i, vars), decls[1..], vars, hasCtx);
    }
  }

  lemma TransferLaws(vars: set<Decl>, seeds: IntervalMap, flags: map<Decl, int64>, fatal: Stmt -> bool)
    ensures var an, m := Hooks(vars, seeds, flags, fatal), StoreMeaning(vars, flags, fatal);
            && (forall s, iv {:trigger an.transfer(s, iv)} :: m.ok(iv) ==> m.ok(an.transfer(s, iv)))
            && (forall s, iv, env, env' {:trigger m.gamma(iv, env), m.step(s, env, env')} ::
                  m.ok(iv) && m.gamma(iv, env) && m.step(s, env, env') ==> m.gamma(an.transfer(s, iv), env') && !an.fatal(s))
  {
    forall s: Stmt, iv: IntervalMap | iv.Keys == vars
      ensures Assigned(iv, s, vars, true).Keys == vars
    {
      if s.DeclStmt? {
        AssignedDeclsKeys(iv, s.decls, vars, true);
      }
    }
    forall s: Stmt, iv: IntervalMap, env: Store, env': Store |
      iv.Keys == vars && WellTyped(env) && Describes(iv, env) && Covered(s, vars, fatal) && Step(s, env, env')
      ensures WellTyped(env') && Describes(Assigned(iv, s, vars, true), env')
    {
      AssignedSound(iv, s, vars, env, env');
      StepKeepsTypes(s, env, env');
    }
  }

  lemma RefineLawsHold(vars: set<Decl>, seeds: IntervalMap, flags: map<Decl, int64>, fatal: Stmt -> bool)
    ensures DataflowSoundness.RefineSound(Hooks(vars, seeds, flags, fatal).refine.value, StoreMeaning(vars, flags, fatal))
  {
    forall cond: Expr, taken: bool, iv: IntervalMap
      ensures Narrower(Refined(iv, cond, taken, vars, true), iv)
    {
      RefinedReductive(iv, cond, taken, vars, true);
    }
    forall cond: Expr, taken: bool, iv: IntervalMap, env: Store | Describes(iv, env) && TakesBranch(flags, cond, taken, env)
      ensures Describes(Refined(iv, cond, taken, vars, true), env)
    {
      RefinedSound(iv, cond, taken, vars, true, env);
    }
    forall cond: Expr, taken: bool, iv: IntervalMap, env: Store | Describes(Refined(iv, cond, taken, vars, true), env)
      ensures Describes(iv, env)
    {
      NarrowerDescribes(Refined(iv, cond, taken, vars, true), iv, env);
    }
  }

  lemma NarrowerDescribes(to: IntervalMap, from: IntervalMap, env: Store)
    requires Narrower(to, from) && Describes(to, env)
    ensures Describes(from, env)
  {
    forall d | d in from && d in env
      ensures from[d].Contains(env[d])
    {
      assert I.Subset(to[d], from[d]);
    }
  }

  lemma WidenLaws(vars: set<Decl>, seeds: IntervalMap, flags: map<Decl, int64>, fatal: Stmt -> bool)
    ensures DataflowSoundness.WidenSound(Hooks(vars, seeds, flags, fatal).widen.value, StoreMeaning(vars, flags, fatal))
  {
    forall iv: IntervalMap
      ensures Widened(iv).Keys == iv.Keys
      ensures forall env :: Describes(iv, env) ==> Describes(Widened(iv), env)
    {
      WidenedSound(iv);
    }
  }

  lemma WidenedSound(iv: IntervalMap)
    ensures Widened(iv).Keys == iv.Keys
    ensures forall env :: Describes(iv, env) ==> Describes(Widened(iv), env)
  {
    forall env | Describes(iv, env)
      ensures Describes(Widened(iv), env)
    {
      forall d | d in iv && d in env
        ensures Widened(iv)[d].Contains(env[d])
      {
        assert iv[d].Contains(env[d]);
      }
    }
  }

  lemma BranchLaws(vars: set<Decl>, seeds: IntervalMap, flags: map<Decl, int64>, fatal: Stmt -> bool)
    ensures var an, m := Hooks(vars, seeds, flags, fatal), StoreMeaning(vars, flags, fatal);
            && (forall cond, taken, env {:trigger an.infeasible(cond, taken), m.takes(cond, taken, env)} ::
                  m.takes(cond, taken, env) ==> !an.infeasible(cond, taken))
            && (forall cond, taken, env {:trigger an.edgeCondition(cond), m.takes(cond, taken, env)} ::
                  m.takes(cond, taken, env) ==>
                    m.takes(an.edgeCondition(cond).0, taken != an.edgeCondition(cond).1, env))
  {
    forall cond: Expr, taken: bool, env: Store | TakesBranch(flags, cond, taken, env)
      ensures !InfeasibleByFlags(flags, cond, taken)
      ensures TakesBranch(flags, EdgeCondition(cond, false).0, taken != EdgeCondition(cond, false).1, env)
    {
      FlagPruningSound(flags, cond, taken, env);
      var v :| Evals(cond, env, v) && (v != 0) == taken;
      EdgeConditionSound(cond, false, env, v);
    }
  }

  // --- End to end ---

  /** Without seeds the analysis starts in a state that describes every store, with seeds every store they allow. */
  lemma InitialDescribes(vars: set<Decl>, seeds: IntervalMap, flags: map<Decl, int64>, fatal: Stmt -> bool, env: Store)
    requires WellTyped(env)
    ensures StoreMeaning(vars, flags, fatal).gamma(Hooks(vars, seeds, flags, fatal).initial, env) <==>
              forall d :: d in seeds && d in vars && d in env ==> seeds[d].Contains(env[d])
  {
    var initial := InitialState(vars, seeds);
    if forall d :: d in seeds && d in vars && d in env ==> seeds[d].Contains(env[d]) {
      assert Describes(initial, env);
    } else {
      var d :| d in seeds && d in vars && d in env && !seeds[d].Contains(env[d]);
      assert !initial[d].Contains(env[d]);
    }
  }

  /** What the recorded state says about a variable: unknown when the statement was not recorded. */
  function IntervalAt(report: map<(D.BlockId, nat), IntervalMap>, b: D.BlockId, i: nat, d: Decl): Interval {
    if (b, i) in report && d in report[(b, i)] then report[(b, i)][d] else I.Top
  }

  /**
   End to end: in any function of assignments, increments, calls and guarded branches, when
   the engine converges, the interval recorded for a variable at a statement contains its
   value on every execution that reaches the statement.
   */
  lemma RecordedIntervalsContainValues(
    cfg: Flow, vars: set<Decl>, seeds: IntervalMap, flags: map<Decl, int64>, fatal: Stmt -> bool,
    run: seq<(D.BlockId, Store)>, n: nat, i: nat, at: Store, d: Decl)
    requires D.Solve(cfg, Hooks(vars, seeds, flags, fatal)).converged
    requires DataflowSoundness.IsRun(cfg, StoreMeaning(vars, flags, fatal), InitialState(vars, seeds), run)
    requires n < |run| && run[n].0 < |cfg.blocks| && i < |cfg.blocks[run[n].0].elems|
    requires DataflowSoundness.Executes(StoreMeaning(vars, flags, fatal), cfg.blocks[run[n].0].elems[..i], run[n].1, at)
    requires !fatal(cfg.blocks[run[n].0].elems[i]) && d in at
    ensures IntervalAt(D.Solve(cfg, Hooks(vars, seeds, flags, fatal)).report, run[n].0, i, d).Contains(at[d])
    ensures (run[n].0, i) in D.Solve(cfg, Hooks(vars, seeds, flags, fatal)).report
  {
    IntervalsLocallySound(vars, seeds, flags, fatal);
    DataflowSoundness.ReportDescribesRuns(
      cfg, Hooks(vars, seeds, flags, fatal), StoreMeaning(vars, flags, fatal), run, n, i, at);
  }
}
