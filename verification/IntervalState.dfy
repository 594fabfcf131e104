/** The in-place operations on the interval state, each proved equal to its function. */
module IntervalState {
  import opened Int64
  import opened Ast
  import opened IntervalEval
  import I = Intervals
  import D = Dataflow
  import Engine = DataflowEngine
  import IntervalAnalysis

  lemma {:induction false} RefineByAtomsConcat(iv: IntervalMap, a: seq<Atom>, b: seq<Atom>, vars: set<Decl>, hasCtx: bool)
    ensures RefineByAtoms(iv, a + b, vars, hasCtx) == RefineByAtoms(RefineByAtoms(iv, a, vars, hasCtx), b, vars, hasCtx)
    decreases |a|
  {
    if a == [] {
      assert a + b == b;
    } else {
      assert (a + b)[0] == a[0] && (a + b)[1..] == a[1..] + b;
      RefineByAtomsConcat(RefineByAtom(iv, a[0], vars, hasCtx), a[1..], b, vars, hasCtx);
    }
  }

  class State {
    var iv: IntervalMap

    constructor (iv: IntervalMap)
      ensures this.iv == iv
    {
      this.iv := iv;
    }

    method Set(d: Decl, i: Interval, vars: set<Decl>)
      modifies this
      ensures iv == Put(old(iv), d, i, vars)
    {
      if d in vars {
        iv := iv[d := i];
      }
    }

    /** applyIntervalAssign. */
    method ApplyAssign(s: Stmt, vars: set<Decl>, hasCtx: bool)
      modifies this
      ensures iv == Assigned(old(iv), s, vars, hasCtx)
    {
      match s
      case DeclStmt(decls) =>
        for k := 0 to |decls|
          invariant AssignedDecls(iv, decls[k..], vars, hasCtx) == AssignedDecls(old(iv), decls, vars, hasCtx)
        {
          assert decls[k..][0] == decls[k] && decls[k..][1..] == decls[k + 1..];
          var i := if decls[k].init.Some? then EvalInterval(decls[k].init.value, iv, hasCtx) else I.Top;
          Set(decls[k].decl, i, vars);
        }
      case Assign(x, e) => Set(x, EvalInterval(e, iv, hasCtx), vars);
      case CompoundAssign(x) => Set(x, I.Top, vars);
      case IncDec(x) => Set(x, I.Top, vars);
      case Call(_, _, refs, untrusted) => ApplyRefs(refs, vars, untrusted && hasCtx);
      case OtherStmt =>
    }

    method ApplyRefs(refs: set<Decl>, vars: set<Decl>, seedTypes: bool)
      modifies this
      ensures iv == AssignedRefs(old(iv), refs, vars, seedTypes)
    {
      var todo := refs;
      while todo != {}
        invariant todo <= refs
        invariant iv == AssignedRefs(old(iv), refs - todo, vars, seedTypes)
        decreases |todo|
      {
        var d :| d in todo;
        todo := todo - {d};
        var seed := SeedOf(d, seedTypes);
        if seed.Some? {
          Set(d, seed.value, vars);
        }
      }
      assert refs - {} == refs;
    }

    /** The callback for `if (x)`. */
    method OnTruth(d: Decl, truthy: bool, vars: set<Decl>, ghost hasCtx: bool)
      modifies this
      ensures iv == RefineByAtoms(old(iv), [IsTruthy(d, truthy)], vars, hasCtx)
    {
      if d in vars && d in iv {
        iv := iv[d := if truthy then I.ConstrainNe(iv[d], 0) else I.ConstrainEq(iv[d], 0)];
      }
    }

    /** The callback for `x OP other`, with x on the left. */
    method OnCompare(d: Decl, op: CmpOp, other: Expr, edgeTrue: bool, vars: set<Decl>, hasCtx: bool)
      modifies this
      ensures iv == RefineByAtoms(old(iv), [Compares(d, op, other, edgeTrue)], vars, hasCtx)
    {
      if d !in vars {
        return;
      }
      var c := FoldConstInt(other, hasCtx);
      if c.Some? && d in iv {
        iv := iv[d := ConstrainBy(iv[d], if edgeTrue then op else NegateCmp(op), c.value)];
      }
    }

    /** refineIntervalOnEdge: the condition walk driving the two callbacks. */
    method RefineOnEdge(cond: Expr, isTrue: bool, vars: set<Decl>, hasCtx: bool)
      modifies this
      ensures iv == Refined(old(iv), cond, isTrue, vars, hasCtx)
      decreases cond
    {
      match cond
      case Paren(s) => RefineOnEdge(s, isTrue, vars, hasCtx);
      case ImpCast(_, s) => RefineOnEdge(s, isTrue, vars, hasCtx);
      case BoolCast(s) => RefineOnEdge(s, isTrue, vars, hasCtx);
      case SameTypeCast(s) => RefineOnEdge(s, isTrue, vars, hasCtx);
      case Expect(s) => RefineOnEdge(s, isTrue, vars, hasCtx);
      case IdentityCall(s) => RefineOnEdge(s, isTrue, vars, hasCtx);
      case VarRef(d) => OnTruth(d, isTrue, vars, hasCtx);
      case AssignExpr(l, _) =>
        if AsVar(l).Some? {
          OnTruth(AsVar(l).value, isTrue, vars, hasCtx);
        }
      case Not(s) => RefineOnEdge(s, !isTrue, vars, hasCtx);
      case LAnd(l, r) =>
        if isTrue {
          RefineByAtomsConcat(iv, Walk(l, true), Walk(r, true), vars, hasCtx);
          RefineOnEdge(l, true, vars, hasCtx);
          RefineOnEdge(r, true, vars, hasCtx);
        }
      case LOr(l, r) =>
        if !isTrue {
          RefineByAtomsConcat(iv, Walk(l, false), Walk(r, false), vars, hasCtx);
          RefineOnEdge(l, false, vars, hasCtx);
          RefineOnEdge(r, false, vars, hasCtx);
        }
      case Compare(op, l, r) => RefineByComparison(op, l, r, isTrue, vars, hasCtx);
      case _ =>
    }

    method RefineByComparison(op: CmpOp, l: Expr, r: Expr, isTrue: bool, vars: set<Decl>, hasCtx: bool)
      modifies this
      ensures iv == Refined(old(iv), Compare(op, l, r), isTrue, vars, hasCtx)
    {
      var lv, rv := AsVar(l), AsVar(r);
      ghost var first := if lv.Some? then [Compares(lv.value, op, IgnoreParenImpCasts(r), isTrue)] else [];
      ghost var second :=
        if rv.Some? && rv != lv then [Compares(rv.value, Mirror(op), IgnoreParenImpCasts(l), isTrue)] else [];
      assert Walk(Compare(op, l, r), isTrue) == first + second;
      RefineByAtomsConcat(iv, first, second, vars, hasCtx);
      if lv.Some? {
        OnCompare(lv.value, op, IgnoreParenImpCasts(r), isTrue, vars, hasCtx);
      }
      if rv.Some? && rv != lv {
        OnCompare(rv.value, Mirror(op), IgnoreParenImpCasts(l), isTrue, vars, hasCtx);
      }
    }

    /** Every interval that is not a single value becomes top. */
    method Widen()
      modifies this
      ensures iv == Widened(old(iv))
    {
      var todo := iv.Keys;
      while todo != {}
        invariant todo <= old(iv).Keys == iv.Keys
        invariant forall d :: d in iv ==> iv[d] == (if d in todo then old(iv)[d] else Widened(old(iv))[d])
        decreases |todo|
      {
        var d :| d in todo;
        todo := todo - {d};
        if iv[d].Singleton().None? {
          iv := iv[d := I.Top];
        }
      }
    }
  }

  method Merge(a: IntervalMap, b: IntervalMap) returns (r: IntervalMap)
    ensures r == Merged(a, b)
  {
    r := a;
    var todo := b.Keys;
    while todo != {}
      invariant todo <= b.Keys
      invariant forall d :: d in r <==> d in a || (d in b && d !in todo)
      invariant forall d :: d in r && d in todo ==> r[d] == a[d]
      invariant forall d :: d in r && d !in todo ==> r[d] == Merged(a, b)[d]
      decreases |todo|
    {
      var d :| d in todo;
      todo := todo - {d};
      r := r[d := if d in r then I.Join(r[d], b[d]) else b[d]];
    }
  }

  /** The analysis object: what it was asked to track, and the states recorded at statements. */
  class Analysis {
    const vars: set<Decl>
    const seeds: IntervalMap
    var atStmt: map<(D.BlockId, nat), IntervalMap>

    constructor (vars: set<Decl>, seeds: IntervalMap)
      ensures this.vars == vars && this.seeds == seeds && atStmt == map[]
    {
      this.vars := vars;
      this.seeds := seeds;
      this.atStmt := map[];
    }

    /** Runs the engine and keeps the state it reports before each statement. */
    method Run(cfg: IntervalAnalysis.Flow, flags: map<Decl, int64>, fatal: Stmt -> bool) returns (converged: bool)
      modifies this
      ensures var r := D.Solve(cfg, IntervalAnalysis.Hooks(vars, seeds, flags, fatal));
              atStmt == r.report && converged == r.converged
    {
      var r := Engine.RunDataflow(cfg, IntervalAnalysis.Hooks(vars, seeds, flags, fatal));
      atStmt := r.report;
      converged := r.converged;
    }

    method IntervalAt(b: D.BlockId, i: nat, d: Decl) returns (r: Interval)
      ensures r == IntervalAnalysis.IntervalAt(atStmt, b, i, d)
    {
      if (b, i) !in atStmt {
        return I.Top;
      }
      var state := atStmt[(b, i)];
      return if d in state then state[d] else I.Top;
    }
  }
}
