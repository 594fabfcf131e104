/**
 How precise the numeric analysis is: what a condition's edge leaves of every interval, what a
 statement changes, and what the engine therefore records behind a branch.
 */
module IntervalExact {
  import opened Int64
  import opened Ast
  import opened IntervalEval
  import I = Intervals
  import D = Dataflow
  import W = WideningDrain
  import EngineExact
  import IntervalDrain
  import IA = IntervalAnalysis

  // --- Constants ---

  /** Expressions the compiler folds: no variables, calls, assignments or unknown casts. */
  predicate Foldable(e: Expr) {
    match e
    case IntLit(_, _) => true
    case Paren(s) => Foldable(s)
    case ImpCast(k, s) => !k.OtherCast? && Foldable(s)
    case SameTypeCast(s) => Foldable(s)
    case Plus(s) => Foldable(s)
    case Minus(s, _) => Foldable(s)
    case Not(s) => Foldable(s)
    case Arith(_, l, r, _) => Foldable(l) && Foldable(r)
    case Compare(_, l, r) => Foldable(l) && Foldable(r)
    case _ => false
  }

  lemma {:induction false} FoldedEvals(e: Expr, env: Store)
    requires ConstEval(e).Some?
    ensures Foldable(e) && Evals(e, env, ConstEval(e).value)
  {
    match e
    case Paren(s) => FoldedEvals(s, env);
    case ImpCast(k, s) => FoldedEvals(s, env);
    case SameTypeCast(s) => FoldedEvals(s, env);
    case Plus(s) => FoldedEvals(s, env);
    case Minus(s, _) => FoldedEvals(s, env);
    case Not(s) => FoldedEvals(s, env);
    case Arith(_, l, r, _) => FoldedEvals(l, env); FoldedEvals(r, env);
    case Compare(_, l, r) => FoldedEvals(l, env); FoldedEvals(r, env);
    case _ =>
  }

  lemma {:induction false} EvaluatedFolds(e: Expr, env: Store, v: int)
    requires Foldable(e) && Evals(e, env, v)
    ensures ConstEval(e).Some?
  {
    match e
    case Paren(s) => EvaluatedFolds(s, env, v);
    case ImpCast(k, s) =>
      if k.Integral? {
        var w :| Evals(s, env, w) && v == Wrap(k.to, w);
        EvaluatedFolds(s, env, w);
      } else {
        EvaluatedFolds(s, env, v);
      }
    case SameTypeCast(s) => EvaluatedFolds(s, env, v);
    case Plus(s) => EvaluatedFolds(s, env, v);
    case Minus(s, _) =>
      EvaluatedFolds(s, env, -v);
      ConstEvalSound(s, env, -v);
    case Not(s) =>
      var w :| Evals(s, env, w) && v == Truth(w == 0);
      EvaluatedFolds(s, env, w);
    case Arith(op, l, r, _) =>
      var x, y :| Evals(l, env, x) && Evals(r, env, y) && ArithResult(op, x, y) == Some(v);
      EvaluatedFolds(l, env, x);
      EvaluatedFolds(r, env, y);
      ConstEvalSound(l, env, x);
      ConstEvalSound(r, env, y);
    case Compare(op, l, r) =>
      var x, y :| Evals(l, env, x) && Evals(r, env, y) && v == Truth(Relates(op, x, y));
      EvaluatedFolds(l, env, x);
      EvaluatedFolds(r, env, y);
    case _ =>
  }

  /** The folder answers exactly the value the expression has in every store, and only where it has one. */
  lemma ConstEvalExact(e: Expr, env: Store, v: int)
    ensures ConstEval(e) == Some(v) <==> Foldable(e) && Evals(e, env, v)
  {
    if ConstEval(e).Some? {
      FoldedEvals(e, env);
      if Evals(e, env, v) {
        ConstEvalSound(e, env, v);
      }
    } else if Foldable(e) && Evals(e, env, v) {
      EvaluatedFolds(e, env, v);
    }
  }

  /** A literal under minus signs, parentheses and implicit casts. */
  predicate SignedLiteral(e: Expr) {
    match e
    case IntLit(_, ty) => ty.width <= 64
    case Paren(s) => SignedLiteral(s)
    case ImpCast(_, s) => SignedLiteral(s)
    case Minus(s, _) => SignedLiteral(s)
    case _ => false
  }

  lemma {:induction false} SignedLiteralReads(e: Expr, env: Store, v: int)
    requires SignedLiteral(e) && Faithful(e, env) && Evals(e, env, v)
    ensures ConstInt(e).Some?
  {
    match e
    case IntLit(n, ty) =>
      Pow2Of63();
      Pow2Monotone(ty.width - 1, 63);
    case Paren(s) => SignedLiteralReads(s, env, v);
    case ImpCast(k, s) =>
      if k.Integral? {
        var w :| Evals(s, env, w) && v == Wrap(k.to, w);
        SignedLiteralReads(s, env, w);
      } else {
        SignedLiteralReads(s, env, v);
      }
    case Minus(s, _) => SignedLiteralReads(s, env, -v);
  }

  /** The constant of a comparison is found: without type information for signed literals, with it for all folded 64-bit values. */
  lemma ConstantFound(e: Expr, hasCtx: bool, env: Store, v: int)
    requires Faithful(e, env) && Evals(e, env, v) && Fits(v)
    requires SignedLiteral(e) || (hasCtx && Foldable(e))
    ensures FoldConstInt(e, hasCtx) == Some(v as int64)
  {
    if SignedLiteral(e) {
      SignedLiteralReads(e, env, v);
    } else {
      ConstEvalExact(e, env, v);
    }
    FoldConstSound(e, hasCtx, env, v);
  }

  // --- Refinement ---

  /** The constant a callback compares its variable with, if there is one. */
  function Bound(a: Atom, hasCtx: bool): Option<int64> {
    match a
    case IsTruthy(_, _) => Some(0)
    case Compares(_, _, other, _) => FoldConstInt(other, hasCtx)
  }

  /** What the callback says about a value of its variable. */
  predicate Says(a: Atom, c: int64, v: int) {
    match a
    case IsTruthy(_, t) => (v != 0) == t
    case Compares(_, op, _, t) => Relates(op, v, c as int) == t
  }

  /** The callback only rules out one value. */
  predicate Excludes(a: Atom) {
    match a
    case IsTruthy(_, t) => t
    case Compares(_, op, _, t) => (op == NE && t) || (op == EQ && !t)
  }

  /** The callback compares with an extreme of the 64-bit range in the way that is read as impossible. */
  predicate Beyond(a: Atom, c: int64) {
    a.Compares? && BeyondInt64(if a.holds then a.cmp else NegateCmp(a.cmp), c)
  }

  lemma AtomExact(iv: IntervalMap, a: Atom, vars: set<Decl>, hasCtx: bool, d: Decl, v: int)
    requires d in iv
    ensures var r := RefineByAtom(iv, a, vars, hasCtx);
            && d in r
            && (a.decl != d || d !in vars || Bound(a, hasCtx).None? ==> r[d] == iv[d])
            && (a.decl == d && d in vars && Bound(a, hasCtx).Some? ==>
                  var c := Bound(a, hasCtx).value;
                  && (r[d].Contains(v) ==> iv[d].Contains(v) && (!Excludes(a) ==> Says(a, c, v)))
                  && (iv[d].Contains(v) && Says(a, c, v) && !Beyond(a, c) ==> r[d].Contains(v)))
  {
    if a.decl == d && d in vars && Bound(a, hasCtx).Some? {
      match a
      case IsTruthy(_, t) => ConstrainExact(iv[d], if t then NE else EQ, 0, v);
      case Compares(_, op, _, t) =>
        var c := Bound(a, hasCtx).value;
        NegateCmpComplements(op, v, c as int);
        ConstrainExact(iv[d], if t then op else NegateCmp(op), c, v);
    }
    hide ConstrainBy, FoldConstInt;
  }

  /** Callbacks about d with a constant that say v is possible. */
  ghost predicate AllSay(atoms: seq<Atom>, hasCtx: bool, d: Decl, v: int, strictly: bool) {
    forall a :: a in atoms && a.decl == d && Bound(a, hasCtx).Some? ==>
      var c := Bound(a, hasCtx).value;
      if strictly then Says(a, c, v) && !Beyond(a, c) else Excludes(a) || Says(a, c, v)
  }

  lemma {:induction false} AtomsExact(iv: IntervalMap, atoms: seq<Atom>, vars: set<Decl>, hasCtx: bool, d: Decl, v: int)
    requires d in iv && d in vars
    ensures var r := RefineByAtoms(iv, atoms, vars, hasCtx);
            && d in r
            && (r[d].Contains(v) ==> iv[d].Contains(v) && AllSay(atoms, hasCtx, d, v, false))
            && (iv[d].Contains(v) && AllSay(atoms, hasCtx, d, v, true) ==> r[d].Contains(v))
    decreases |atoms|
  {
    hide RefineByAtom, Bound, Says, Excludes, Beyond;
    if atoms != [] {
      AtomExact(iv, atoms[0], vars, hasCtx, d, v);
      AtomsExact(RefineByAtom(iv, atoms[0], vars, hasCtx), atoms[1..], vars, hasCtx, d, v);
      assert forall a :: a in atoms <==> a == atoms[0] || a in atoms[1..];
    }
  }

  /**
   An edge keeps of a variable's interval exactly the members that every constant comparison
   the walk finds allows: none that one of them rules out, apart from single excluded values,
   and all that all of them allow, apart from the two comparisons read as impossible.
   */
  lemma RefinedExact(iv: IntervalMap, cond: Expr, isTrue: bool, vars: set<Decl>, hasCtx: bool, d: Decl, v: int)
    requires d in iv && d in vars
    ensures var r := Refined(iv, cond, isTrue, vars, hasCtx);
            && d in r
            && (r[d].Contains(v) ==> iv[d].Contains(v) && AllSay(Walk(cond, isTrue), hasCtx, d, v, false))
            && (iv[d].Contains(v) && AllSay(Walk(cond, isTrue), hasCtx, d, v, true) ==> r[d].Contains(v))
  {
    AtomsExact(iv, Walk(cond, isTrue), vars, hasCtx, d, v);
  }

  /** An excluded value at an end is trimmed: a single exclusion leaves the hull of the other members. */
  lemma ExclusionExact(iv: IntervalMap, a: Atom, vars: set<Decl>, hasCtx: bool)
    requires a.decl in iv && a.decl in vars && Excludes(a) && Bound(a, hasCtx).Some?
    requires iv[a.decl].Between? && iv[a.decl].Singleton() != Bound(a, hasCtx)
    ensures var c := Bound(a, hasCtx).value;
            I.Hull(RefineByAtom(iv, a, vars, hasCtx)[a.decl], (v: int) => iv[a.decl].Contains(v) && v != c as int)
  {
    ConstrainNeIsHull(iv[a.decl], Bound(a, hasCtx).value);
    hide I.Hull, I.ConstrainNe, FoldConstInt;
  }

  lemma {:induction false} UnmentionedByAtoms(iv: IntervalMap, atoms: seq<Atom>, vars: set<Decl>, hasCtx: bool, d: Decl)
    requires d in iv && (d !in vars || forall a :: a in atoms ==> a.decl != d)
    ensures var r := RefineByAtoms(iv, atoms, vars, hasCtx); d in r && r[d] == iv[d]
  {
    hide ConstrainBy, FoldConstInt;
    if atoms != [] {
      UnmentionedByAtoms(RefineByAtom(iv, atoms[0], vars, hasCtx), atoms[1..], vars, hasCtx, d);
    }
  }

  // --- Transfer ---

  /** The variables a statement can write. */
  function Written(s: Stmt): set<Decl> {
    match s
    case DeclStmt(decls) => set i | i in decls :: i.decl
    case Assign(x, _) => {x}
    case CompoundAssign(x) => {x}
    case IncDec(x) => {x}
    case Call(_, _, refs, _) => refs
    case OtherStmt => {}
  }

  lemma {:induction false} DeclsFrame(iv: IntervalMap, decls: seq<Init>, vars: set<Decl>, hasCtx: bool, d: Decl)
    requires d in iv && forall i :: i in decls ==> i.decl != d
    ensures var r := AssignedDecls(iv, decls, vars, hasCtx); d in r && r[d] == iv[d]
    decreases |decls|
  {
    if decls != [] {
      assert decls[0] in decls;
      var i := if decls[0].init.Some? then EvalInterval(decls[0].init.value, iv, hasCtx) else I.Top;
      DeclsFrame(Put(iv, decls[0].decl, i, vars), decls[1..], vars, hasCtx, d);
    }
  }

  /** A statement changes the intervals of the variables it writes and no others. */
  lemma AssignedFrame(iv: IntervalMap, s: Stmt, vars: set<Decl>, hasCtx: bool, d: Decl)
    requires d in iv && (d !in Written(s) || d !in vars)
    ensures var r := Assigned(iv, s, vars, hasCtx); d in r && r[d] == iv[d]
  {
    if s.DeclStmt? {
      if d !in Written(s) {
        assert forall i :: i in s.decls ==> i.decl in Written(s);
        DeclsFrame(iv, s.decls, vars, hasCtx, d);
      } else {
        UntrackedDecls(iv, s.decls, vars, hasCtx, d);
      }
    }
  }

  lemma {:induction false} UntrackedDecls(iv: IntervalMap, decls: seq<Init>, vars: set<Decl>, hasCtx: bool, d: Decl)
    requires d in iv && d !in vars
    ensures var r := AssignedDecls(iv, decls, vars, hasCtx); d in r && r[d] == iv[d]
    decreases |decls|
  {
    if decls != [] {
      var i := if decls[0].init.Some? then EvalInterval(decls[0].init.value, iv, hasCtx) else I.Top;
      UntrackedDecls(Put(iv, decls[0].decl, i, vars), decls[1..], vars, hasCtx, d);
    }
  }

  lemma {:induction false} LastDecl(iv: IntervalMap, decls: seq<Init>, last: Init, vars: set<Decl>, hasCtx: bool)
    requires last.decl in vars
    ensures var before, r := AssignedDecls(iv, decls, vars, hasCtx), AssignedDecls(iv, decls + [last], vars, hasCtx);
            last.decl in r &&
            r[last.decl] == if last.init.Some? then EvalInterval(last.init.value, before, hasCtx) else I.Top
    decreases |decls|
  {
    var all := decls + [last];
    if decls != [] {
      var i := if decls[0].init.Some? then EvalInterval(decls[0].init.value, iv, hasCtx) else I.Top;
      assert all[1..] == decls[1..] + [last];
      LastDecl(Put(iv, decls[0].decl, i, vars), decls[1..], last, vars, hasCtx);
    } else {
      assert all[1..] == [];
      assert all[0] == last;
    }
  }

  /**
   What a written variable is known to be: its initialiser or assigned value, read before the
   write and after earlier declarators; the whole type range after an untrusted call that has
   one; otherwise nothing.
   */
  lemma AssignedExact(iv: IntervalMap, s: Stmt, vars: set<Decl>, hasCtx: bool, d: Decl)
    requires d in vars && d in Written(s)
    ensures var r := Assigned(iv, s, vars, hasCtx);
            && (s.Assign? ==> d in r && r[d] == EvalInterval(s.value, iv, hasCtx))
            && (s.DeclStmt? && s.decls[|s.decls| - 1].decl == d ==>
                  var before, last := s.decls[..|s.decls| - 1], s.decls[|s.decls| - 1];
                  d in r && r[d] == (if last.init.Some? then EvalInterval(last.init.value, AssignedDecls(iv, before, vars, hasCtx), hasCtx) else I.Top))
            && (s.Call? && s.untrusted && hasCtx && TypeRange(d.ty).Some? ==> d in r && forall v :: r[d].Contains(v) <==> InType(d.ty, v))
            && (s.CompoundAssign? || s.IncDec? || (s.Call? && !(s.untrusted && hasCtx)) ==> d in r && r[d] == I.Top)
  {
    if s.DeclStmt? {
      var n := |s.decls| - 1;
      assert s.decls == s.decls[..n] + [s.decls[n]];
      if s.decls[n].decl == d {
        LastDecl(iv, s.decls[..n], s.decls[n], vars, hasCtx);
      }
    }
  }

  // --- Joins and widening ---

  /** The merge is the least state above both sides. */
  lemma MergedLeast(a: IntervalMap, b: IntervalMap, j: IntervalMap, d: Decl)
    requires a.Keys == b.Keys == j.Keys && d in a && I.Subset(a[d], j[d]) && I.Subset(b[d], j[d])
    ensures I.Subset(a[d], Merged(a, b)[d]) && I.Subset(b[d], Merged(a, b)[d]) && I.Subset(Merged(a, b)[d], j[d])
  {
    I.JoinIsLeast(a[d], b[d]);
  }

  ghost predicate OneMember(i: Interval) {
    exists v :: i.Contains(v) && forall w :: i.Contains(w) ==> w == v
  }

  lemma SingletonExact(i: Interval)
    ensures OneMember(i) <==> i.Singleton().Some?
  {
    if i.Singleton().Some? {
      assert i.Contains(i.Singleton().value as int);
    } else {
      forall v | i.Contains(v)
        ensures exists w :: i.Contains(w) && w != v
      {
        var w := if i.Contains(v - 1) then v - 1 else v + 1;
        assert i.Contains(w);
      }
    }
  }

  /** Widening keeps a variable's interval when it has exactly one member, and forgets it otherwise. */
  lemma WidenedExact(iv: IntervalMap, d: Decl)
    requires d in iv
    ensures var r := Widened(iv);
            d in r && if OneMember(iv[d]) then r[d] == iv[d] else forall v :: r[d].Contains(v)
  {
    SingletonExact(iv[d]);
    hide OneMember;
  }

  // --- Branch conditions ---

  /** Nothing transparent is left around the condition that is refined. */
  lemma {:induction false} EdgeConditionBare(e: Expr, flip: bool)
    ensures var core := IA.EdgeCondition(e, flip).0;
            !(core.Paren? || core.ImpCast? || core.BoolCast? || core.SameTypeCast? || core.Expect? || core.Not? || core.Comma?)
  {
    match e
    case Paren(s) => EdgeConditionBare(s, flip);
    case ImpCast(_, s) => EdgeConditionBare(s, flip);
    case BoolCast(s) => EdgeConditionBare(s, flip);
    case SameTypeCast(s) => EdgeConditionBare(s, flip);
    case Expect(s) => EdgeConditionBare(s, flip);
    case Not(s) => EdgeConditionBare(s, !flip);
    case Comma(_, r) => EdgeConditionBare(r, flip);
    case _ =>
  }

  /** A flag with a known value decides the branches on it. */
  lemma FlagBranchExact(flags: map<Decl, int64>, cond: Expr, d: Decl, isTrue: bool)
    requires IgnoreParenImpCasts(cond) == VarRef(d) && d in flags
    ensures IA.InfeasibleByFlags(flags, cond, isTrue) <==> (flags[d] != 0) != isTrue
  {
    StrippedTwice(cond);
  }

  /** And those on its comparisons with constants, both ways round. */
  lemma FlagComparisonExact(flags: map<Decl, int64>, cond: Expr, d: Decl, flag: Expr, constant: Expr, env: Store, k: int, isTrue: bool)
    requires IgnoreParenImpCasts(flag) == VarRef(d) && d in flags
    requires Foldable(constant) && Evals(constant, env, k) && Fits(k)
    requires var core := IgnoreParenImpCasts(cond);
             core.Compare? && (core.cmp == EQ || core.cmp == NE) &&
             ((core.lhs == flag && core.rhs == constant) || (core.lhs == constant && core.rhs == flag))
    ensures IA.InfeasibleByFlags(flags, cond, isTrue) <==> Relates(IgnoreParenImpCasts(cond).cmp, flags[d] as int, k) != isTrue
  {
    var core := IgnoreParenImpCasts(cond);
    ConstEvalExact(constant, env, k);
    NoFlag(flags, constant);
    hide Evals, Foldable, ConstEval;
    assert IA.FlagComparison(flags, core.cmp, flag, constant) == Some(Relates(core.cmp, flags[d] as int, k));
    assert IA.FlagComparison(flags, core.cmp, constant, flag).None?;
    StrippedTwice(cond);
  }

  lemma {:induction false} NoFlag(flags: map<Decl, int64>, e: Expr)
    requires Foldable(e)
    ensures IA.FlagValue(flags, e).None?
  {
    match e
    case Paren(s) => NoFlag(flags, s);
    case ImpCast(_, s) => NoFlag(flags, s);
    case _ =>
  }

  lemma {:induction false} StrippedTwice(e: Expr)
    ensures IgnoreParenImpCasts(IgnoreParenImpCasts(e)) == IgnoreParenImpCasts(e)
  {
    match e
    case Paren(s) => StrippedTwice(s);
    case ImpCast(_, s) => StrippedTwice(s);
    case _ =>
  }

  // --- End to end ---

  /** The exits of the analysis track exactly its variables. */
  lemma ExitsTracked(cfg: IA.Flow, vars: set<Decl>, seeds: IntervalMap, flags: map<Decl, int64>, fatal: Stmt -> bool, p: D.BlockId)
    requires p in D.Solve(cfg, IA.Hooks(vars, seeds, flags, fatal)).exits
    ensures D.Solve(cfg, IA.Hooks(vars, seeds, flags, fatal)).exits[p].Keys == vars
  {
    IntervalDrain.HooksKeepKeys(cfg, vars, seeds, flags, fatal);
    hide IA.Hooks, D.Solve;
    W.ExitsOk(cfg, IA.Hooks(vars, seeds, flags, fatal), IntervalDrain.Steps(vars), p);
  }

  /** b is entered from p only, on one side of its branch, and starts with an element that is recorded. */
  predicate Behind(cfg: IA.Flow, fatal: Stmt -> bool, p: D.BlockId, b: D.BlockId, onTrue: bool) {
    && p < |cfg.blocks| && b < |cfg.blocks| && b != cfg.entry && cfg.blocks[b].preds == [Some(p)] && cfg.blocks[p].cond.Some?
    && |cfg.blocks[p].succs| == 2 && cfg.blocks[p].succs[0] != cfg.blocks[p].succs[1]
    && cfg.blocks[p].succs[if onTrue then 0 else 1] == Some(b)
    && cfg.blocks[b].elems != [] && !fatal(cfg.blocks[b].elems[0])
  }

  /** The first recorded state behind a branch is the refined exit of the branch, or there is none. */
  lemma RecordedBehindBranch(
    cfg: IA.Flow, vars: set<Decl>, seeds: IntervalMap, flags: map<Decl, int64>, fatal: Stmt -> bool,
    p: D.BlockId, b: D.BlockId, onTrue: bool)
    requires Behind(cfg, fatal, p, b, onTrue)
    ensures var r := D.Solve(cfg, IA.Hooks(vars, seeds, flags, fatal));
            var (leaf, flip) := IA.EdgeCondition(cfg.blocks[p].cond.value, false);
            var taken := if flip then !onTrue else onTrue;
            && ((b, 0) in r.report <==> p in r.exits && !IA.InfeasibleByFlags(flags, leaf, taken))
            && ((b, 0) in r.report ==> r.report[(b, 0)] == Refined(r.exits[p], leaf, taken, vars, true))
  {
    var an := IA.Hooks(vars, seeds, flags, fatal);
    var exits := D.Solve(cfg, an).exits;
    hide D.Solve, D.ComputeEntry, Refined, Assigned, IA.EdgeCondition, IA.InfeasibleByFlags;
    EngineExact.EntryBehindBranch(cfg, an, exits, p, b, onTrue);
    EngineExact.FirstRecorded(cfg, an, b);
  }

  /**
   Behind a branch, every value the recorded interval still allows satisfies each comparison
   with a constant that the condition makes on that edge, and every value that was possible
   before and satisfies all of them is still allowed.
   */
  lemma BranchBindsReport(
    cfg: IA.Flow, vars: set<Decl>, seeds: IntervalMap, flags: map<Decl, int64>, fatal: Stmt -> bool,
    p: D.BlockId, b: D.BlockId, onTrue: bool, d: Decl, v: int)
    requires Behind(cfg, fatal, p, b, onTrue) && d in vars
    requires (b, 0) in D.Solve(cfg, IA.Hooks(vars, seeds, flags, fatal)).report
    ensures var r := D.Solve(cfg, IA.Hooks(vars, seeds, flags, fatal));
            var (leaf, flip) := IA.EdgeCondition(cfg.blocks[p].cond.value, false);
            var atoms := Walk(leaf, if flip then !onTrue else onTrue);
            && p in r.exits && d in r.exits[p] && d in r.report[(b, 0)]
            && (r.report[(b, 0)][d].Contains(v) ==> r.exits[p][d].Contains(v) && AllSay(atoms, true, d, v, false))
            && (r.exits[p][d].Contains(v) && AllSay(atoms, true, d, v, true) ==> r.report[(b, 0)][d].Contains(v))
  {
    hide D.Solve, Refined, Walk, IA.Hooks, IA.EdgeCondition, IA.InfeasibleByFlags, AllSay;
    RecordedBehindBranch(cfg, vars, seeds, flags, fatal, p, b, onTrue);
    ExitsTracked(cfg, vars, seeds, flags, fatal, p);
    var (leaf, flip) := IA.EdgeCondition(cfg.blocks[p].cond.value, false);
    RefinedExact(D.Solve(cfg, IA.Hooks(vars, seeds, flags, fatal)).exits[p], leaf, if flip then !onTrue else onTrue, vars, true, d, v);
  }

  /** In particular for `if (d op k)`: on either side no recorded value contradicts the comparison, unless it only excludes k. */
  lemma ComparisonBindsReport(
    cfg: IA.Flow, vars: set<Decl>, seeds: IntervalMap, flags: map<Decl, int64>, fatal: Stmt -> bool,
    p: D.BlockId, b: D.BlockId, onTrue: bool, op: CmpOp, d: Decl, k: nat, ty: IntType, v: int)
    requires Behind(cfg, fatal, p, b, onTrue) && d in vars
    requires cfg.blocks[p].cond == Some(Compare(op, VarRef(d), IntLit(k, ty))) && 0 < ty.width <= 64 && k < Pow2(ty.width - 1)
    requires (if onTrue then op else NegateCmp(op)) != NE
    requires (b, 0) in D.Solve(cfg, IA.Hooks(vars, seeds, flags, fatal)).report
    ensures var state := D.Solve(cfg, IA.Hooks(vars, seeds, flags, fatal)).report[(b, 0)];
            d in state && (state[d].Contains(v) ==> Relates(op, v, k) == onTrue)
  {
    hide D.Solve, IA.Hooks;
    var cond := Compare(op, VarRef(d), IntLit(k, ty));
    BranchBindsReport(cfg, vars, seeds, flags, fatal, p, b, onTrue, d, v);
    var a := Compares(d, op, IntLit(k, ty), onTrue);
    assert IA.EdgeCondition(cond, false) == (cond, false);
    assert a in Walk(cond, onTrue);
    Pow2Of63();
    Pow2Monotone(ty.width - 1, 63);
    ConstantFound(IntLit(k, ty), true, map[], k);
    assert Bound(a, true) == Some(k as int64);
    assert !Excludes(a);
  }
}
