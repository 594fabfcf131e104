/** Interval evaluation and condition refinement: src/engine/IntervalEval.cpp and ConditionWalk.h. */
module IntervalEval {
  import opened Int64
  import opened Ast
  import I = Intervals

  type Interval = I.Interval
  type IntervalMap = map<Decl, Interval>

  /** Every known variable that has a value has one inside its interval. */
  ghost predicate Describes(iv: IntervalMap, env: Store) {
    forall d :: d in iv && d in env ==> iv[d].Contains(env[d])
  }

  // --- Evaluation ---

  function BitAndInterval(l: Interval, r: Interval): Interval {
    if r.Singleton().Some? && r.Singleton().value >= 0 then I.Range(0, r.Singleton().value)
    else if l.Singleton().Some? && l.Singleton().value >= 0 then I.Range(0, l.Singleton().value)
    else
      var lNonNeg := !l.LoIsInf() && l.lo.v >= 0;
      var rNonNeg := !r.LoIsInf() && r.lo.v >= 0;
      if lNonNeg && rNonNeg && !l.HiIsInf() && !r.HiIsInf() then I.Range(0, I.Smaller(l.hi.v, r.hi.v))
      else if lNonNeg && !l.HiIsInf() then I.Range(0, l.hi.v)
      else if rNonNeg && !r.HiIsInf() then I.Range(0, r.hi.v)
      else I.Top
  }

  function RemInterval(l: Interval, r: Interval): Interval {
    var d := r.Singleton();
    if d.None? || d.value == 0 then I.Top
    else
      var bound: int64 := if d.value == MIN64 then MAX64 else if d.value < 0 then -d.value - 1 else d.value - 1;
      if !l.LoIsInf() && l.lo.v >= 0 then I.Range(0, bound) else I.Range(-bound, bound)
  }

  /** Widths up to 64 give bounds that are 64-bit values, except the top of a 64-bit unsigned type. */
  lemma TypeBoundsFit(ty: IntType)
    requires 0 < ty.width <= 64
    ensures Fits(MinOf(ty)) && (ty.signed || ty.width < 64 ==> Fits(MaxOf(ty)))
  {
    Pow2Of63();
    Pow2Monotone(ty.width - 1, 63);
    if ty.width < 64 {
      Pow2Monotone(ty.width, 63);
    }
  }

  /** The finite range of an integer type, where it has one. */
  function TypeRange(ty: IntType): (r: Option<Interval>)
    ensures r.Some? ==> forall v :: r.value.Contains(v) <==> InType(ty, v)
    ensures r.None? <==> ty.width == 0 || ty.width > 64 || (!ty.signed && ty.width == 64)
  {
    if ty.width == 0 || ty.width > 64 then None
    else
      TypeBoundsFit(ty);
      if ty.signed || ty.width < 64 then Some(I.Range(MinOf(ty) as int64, MaxOf(ty) as int64)) else None
  }

  /** An integral conversion keeps an interval that already fits the target type. */
  function CastInterval(v: Interval, to: IntType): Interval {
    if v.Bottom? || v.LoIsInf() || v.HiIsInf() then I.Top
    else if to.width == 0 || to.width > 64 then I.Top
    else
      var max := if !to.signed && to.width >= 64 then INT64_MAX else MaxOf(to);
      if MinOf(to) <= v.lo.v as int && v.hi.v as int <= max then v else I.Top
  }

  /** hasCtx: whether type widths are available to the evaluation. */
  function EvalInterval(e: Expr, iv: IntervalMap, hasCtx: bool): Interval {
    match e
    case Paren(s) => EvalInterval(s, iv, hasCtx)
    case ImpCast(LValueToRValue, s) => EvalInterval(s, iv, hasCtx)
    case ImpCast(NoOp, s) => EvalInterval(s, iv, hasCtx)
    case ImpCast(Integral(to), s) => if hasCtx then CastInterval(EvalInterval(s, iv, hasCtx), to) else I.Top
    case IntLit(n, ty) =>
      var c := Checked(SignExtended(n, ty.width));
      if c.Some? then I.Constant(c.value) else I.Top
    case VarRef(d) => if d in iv then iv[d] else I.Top
    case Minus(s, _) => I.Negate(EvalInterval(s, iv, hasCtx))
    case Plus(s) => EvalInterval(s, iv, hasCtx)
    case Arith(op, x, y, _) =>
      var l, r := EvalInterval(x, iv, hasCtx), EvalInterval(y, iv, hasCtx);
      (match op
       case Add => I.Add(l, r)
       case Sub => I.Sub(l, r)
       case Mul => I.Mul(l, r)
       case And => BitAndInterval(l, r)
       case Rem => RemInterval(l, r))
    case UntrustedCall(ty) => if hasCtx && TypeRange(ty).Some? then TypeRange(ty).value else I.Top
    case _ => I.Top
  }

  /** Every literal the evaluator reaches has its top bit clear, so sign extension reads its value. */
  predicate SignedLiterals(e: Expr) {
    match e
    case Paren(s) => SignedLiterals(s)
    case ImpCast(_, s) => SignedLiterals(s)
    case IntLit(n, ty) => ty.width > 0 && n < Pow2(ty.width - 1)
    case Minus(s, _) => SignedLiterals(s)
    case Plus(s) => SignedLiterals(s)
    case Arith(_, x, y, _) => SignedLiterals(x) && SignedLiterals(y)
    case _ => true
  }

  lemma BitAndSound(l: Interval, r: Interval, x: int, y: int)
    requires l.Contains(x) && r.Contains(y)
    ensures BitAndInterval(l, r).Contains(BitAnd(x, y))
  {
    BitAndSymmetric(x, y);
    if y >= 0 {
      BitAndBelowMask(x, y);
    }
    if x >= 0 {
      BitAndBelowMask(y, x);
    }
  }

  lemma RemSound(l: Interval, r: Interval, x: int, y: int)
    requires l.Contains(x) && r.Contains(y) && y != 0
    ensures RemInterval(l, r).Contains(Remainder(x, y))
  {
    QuotientAndRemainder(x, y);
  }

  lemma CastSound(v: Interval, to: IntType, w: int)
    requires v.Contains(w)
    ensures CastInterval(v, to).Contains(Wrap(to, w))
  {
    if 0 < to.width <= 64 {
      WrapRange(to, w);
      Pow2Of63();
      Pow2Positive(to.width);
    }
  }

  /** The central soundness law of the evaluator: the interval contains every value e can take. */
  lemma {:induction false} EvalIntervalSound(e: Expr, iv: IntervalMap, hasCtx: bool, env: Store, v: int)
    requires SignedLiterals(e) && Describes(iv, env) && Evals(e, env, v)
    ensures EvalInterval(e, iv, hasCtx).Contains(v)
  {
    match e
    case Paren(s) => EvalIntervalSound(s, iv, hasCtx, env, v);
    case ImpCast(k, s) =>
      match k {
        case Integral(to) =>
          var w :| Evals(s, env, w) && v == Wrap(to, w);
          EvalIntervalSound(s, iv, hasCtx, env, w);
          CastSound(EvalInterval(s, iv, hasCtx), to, w);
        case OtherCast =>
        case _ => EvalIntervalSound(s, iv, hasCtx, env, v);
      }
    case Minus(s, _) =>
      EvalIntervalSound(s, iv, hasCtx, env, -v);
      I.NegateSound(EvalInterval(s, iv, hasCtx), -v);
    case Plus(s) => EvalIntervalSound(s, iv, hasCtx, env, v);
    case Arith(op, l, r, _) =>
      var x, y :| Evals(l, env, x) && Evals(r, env, y) && ArithResult(op, x, y) == Some(v);
      EvalIntervalSound(l, iv, hasCtx, env, x);
      EvalIntervalSound(r, iv, hasCtx, env, y);
      ArithSound(op, EvalInterval(l, iv, hasCtx), EvalInterval(r, iv, hasCtx), x, y, v);
    case _ =>
  }

  lemma ArithSound(op: ArithOp, l: Interval, r: Interval, x: int, y: int, v: int)
    requires l.Contains(x) && r.Contains(y) && ArithResult(op, x, y) == Some(v)
    ensures match op
            case Add => I.Add(l, r).Contains(v)
            case Sub => I.Sub(l, r).Contains(v)
            case Mul => I.Mul(l, r).Contains(v)
            case And => BitAndInterval(l, r).Contains(v)
            case Rem => RemInterval(l, r).Contains(v)
  {
    match op
    case Add => I.AddSound(l, r, x, y);
    case Sub => I.SubSound(l, r, x, y);
    case Mul => I.MulSound(l, r, x, y);
    case And => BitAndSound(l, r, x, y);
    case Rem => RemSound(l, r, x, y);
  }

  /** Reading literals by sign extension is exact: it is right precisely when the top bit is clear. */
  lemma LiteralReadingExact(n: nat, ty: IntType, iv: IntervalMap, hasCtx: bool)
    requires 0 < ty.width <= 64 && n < Pow2(ty.width)
    ensures EvalInterval(IntLit(n, ty), iv, hasCtx).Contains(n) <==> n < Pow2(ty.width - 1)
  {
    Pow2Of63();
    Pow2Monotone(ty.width - 1, 63);
    Pow2Positive(ty.width);
  }

  // --- Constants in comparisons ---

  /** The literal path: a literal under any number of minus signs, casts ignored. */
  function ConstInt(e: Expr): Option<int64> {
    match e
    case Paren(s) => ConstInt(s)
    case ImpCast(_, s) => ConstInt(s)
    case IntLit(n, ty) => Checked(SignExtended(n, ty.width))
    case Minus(s, _) =>
      (match ConstInt(s)
       case None => None
       case Some(v) => Some(if v == MIN64 then MIN64 else -v))
    case _ => None
  }

  /** The compiler's own folding of expressions that mention no variable. */
  function ConstEval(e: Expr): Option<int> {
    match e
    case IntLit(n, ty) => Some(n)
    case Paren(s) => ConstEval(s)
    case ImpCast(LValueToRValue, s) => ConstEval(s)
    case ImpCast(NoOp, s) => ConstEval(s)
    case ImpCast(Integral(to), s) =>
      (match ConstEval(s) case None => None case Some(w) => Some(Wrap(to, w)))
    case SameTypeCast(s) => ConstEval(s)
    case Plus(s) => ConstEval(s)
    case Minus(s, ty) =>
      (match ConstEval(s) case None => None case Some(w) => if InType(ty, -w) then Some(-w) else None)
    case Not(s) =>
      (match ConstEval(s) case None => None case Some(w) => Some(Truth(w == 0)))
    case Arith(op, l, r, ty) =>
      (match (ConstEval(l), ConstEval(r))
       case (Some(x), Some(y)) =>
         var v := ArithResult(op, x, y);
         if v.Some? && InType(ty, v.value) then v else None
       case _ => None)
    case Compare(op, l, r) =>
      (match (ConstEval(l), ConstEval(r))
       case (Some(x), Some(y)) => Some(Truth(Relates(op, x, y)))
       case _ => None)
    case _ => None
  }

  function FoldConstInt(e: Expr, hasCtx: bool): Option<int64> {
    if ConstInt(e).Some? then ConstInt(e)
    else if !hasCtx then None
    else match ConstEval(e) case None => None case Some(v) => Checked(v)
  }

  lemma {:induction false} ConstEvalSound(e: Expr, env: Store, v: int)
    requires ConstEval(e).Some? && Evals(e, env, v)
    ensures v == ConstEval(e).value
  {
    match e
    case IntLit(_, _) =>
    case Paren(s) => ConstEvalSound(s, env, v);
    case ImpCast(k, s) =>
      if k.Integral? {
        var w :| Evals(s, env, w) && v == Wrap(k.to, w);
        ConstEvalSound(s, env, w);
      } else {
        ConstEvalSound(s, env, v);
      }
    case SameTypeCast(s) => ConstEvalSound(s, env, v);
    case Plus(s) => ConstEvalSound(s, env, v);
    case Minus(s, _) => ConstEvalSound(s, env, -v);
    case Not(s) =>
      var w :| Evals(s, env, w) && v == Truth(w == 0);
      ConstEvalSound(s, env, w);
    case Arith(op, l, r, _) =>
      var x, y :| Evals(l, env, x) && Evals(r, env, y) && ArithResult(op, x, y) == Some(v);
      ConstEvalSound(l, env, x);
      ConstEvalSound(r, env, y);
    case Compare(op, l, r) =>
      var x, y :| Evals(l, env, x) && Evals(r, env, y) && v == Truth(Relates(op, x, y));
      ConstEvalSound(l, env, x);
      ConstEvalSound(r, env, y);
  }

  lemma {:induction false} ConstIntSound(e: Expr, env: Store, v: int)
    requires Faithful(e, env) && ConstInt(e).Some? && Evals(e, env, v)
    ensures v == ConstInt(e).value as int && v != INT64_MIN
  {
    match e
    case Paren(s) => ConstIntSound(s, env, v);
    case ImpCast(k, s) =>
      if k.Integral? {
        var w :| Evals(s, env, w) && v == Wrap(k.to, w);
        assert k.to.width > 0;
        WrapRange(k.to, w);
        ConstIntSound(s, env, w);
      } else {
        ConstIntSound(s, env, v);
      }
    case IntLit(_, _) =>
    case Minus(s, _) => ConstIntSound(s, env, -v);
  }

  lemma FoldConstSound(e: Expr, hasCtx: bool, env: Store, v: int)
    requires Faithful(e, env) && FoldConstInt(e, hasCtx).Some? && Evals(e, env, v)
    ensures v == FoldConstInt(e, hasCtx).value as int
  {
    if ConstInt(e).Some? {
      ConstIntSound(e, env, v);
    } else {
      ConstEvalSound(e, env, v);
    }
  }

  // --- Condition walk ---

  /** What a condition's edge says about one variable. */
  datatype Atom =
    | IsTruthy(decl: Decl, truthy: bool)
    | Compares(decl: Decl, cmp: CmpOp, other: Expr, holds: bool)

  /** The variable an operand stands for; an assignment stands for its target. */
  function AsVar(e: Expr): Option<Decl> {
    match e
    case Paren(s) => AsVar(s)
    case ImpCast(_, s) => AsVar(s)
    case AssignExpr(l, _) => AsVar(l)
    case VarRef(d) => Some(d)
    case _ => None
  }

  /** The callbacks of the walk over the condition on the given edge, in order. */
  function Walk(cond: Expr, isTrue: bool): seq<Atom> {
    match cond
    case Paren(s) => Walk(s, isTrue)
    case ImpCast(_, s) => Walk(s, isTrue)
    case BoolCast(s) => Walk(s, isTrue)
    case SameTypeCast(s) => Walk(s, isTrue)
    case Expect(s) => Walk(s, isTrue)
    case IdentityCall(s) => Walk(s, isTrue)
    case VarRef(d) => [IsTruthy(d, isTrue)]
    case AssignExpr(l, _) => if AsVar(l).Some? then [IsTruthy(AsVar(l).value, isTrue)] else []
    case Not(s) => Walk(s, !isTrue)
    case LAnd(l, r) => if isTrue then Walk(l, true) + Walk(r, true) else []
    case LOr(l, r) => if isTrue then [] else Walk(l, false) + Walk(r, false)
    case Compare(op, l, r) =>
      var lv, rv := AsVar(l), AsVar(r);
      (if lv.Some? then [Compares(lv.value, op, IgnoreParenImpCasts(r), isTrue)] else [])
      + (if rv.Some? && rv != lv then [Compares(rv.value, Mirror(op), IgnoreParenImpCasts(l), isTrue)] else [])
    case _ => []
  }

  ghost predicate AtomHolds(a: Atom, env: Store) {
    && a.decl in env
    && match a
       case IsTruthy(d, t) => (env[d] != 0) == t
       case Compares(d, op, other, t) =>
         Faithful(other, env) && exists w :: Evals(other, env, w) && Relates(op, env[d], w) == t
  }

  lemma {:induction false} AsVarSound(e: Expr, env: Store, v: int)
    requires Faithful(e, env) && AsVar(e).Some? && Evals(e, env, v)
    ensures AsVar(e).value in env && v == env[AsVar(e).value]
  {
    match e
    case Paren(s) => AsVarSound(s, env, v);
    case ImpCast(k, s) =>
      if k.Integral? {
        var w :| Evals(s, env, w) && v == Wrap(k.to, w);
        assert k.to.width > 0;
        WrapRange(k.to, w);
        AsVarSound(s, env, w);
      } else {
        AsVarSound(s, env, v);
      }
    case AssignExpr(l, _) => AsVarSound(l, env, v);
    case VarRef(_) =>
  }

  lemma CompareWalkSound(op: CmpOp, l: Expr, r: Expr, isTrue: bool, env: Store, x: int, y: int, a: Atom)
    requires Faithful(l, env) && Faithful(r, env)
    requires Evals(l, env, x) && Evals(r, env, y) && Relates(op, x, y) == isTrue
    requires a in Walk(Compare(op, l, r), isTrue)
    ensures AtomHolds(a, env)
  {
    StrippingKeepsFaithful(l, env);
    StrippingKeepsFaithful(r, env);
    StrippingKeepsValue(l, env, x);
    StrippingKeepsValue(r, env, y);
    MirrorExchanges(op, x, y);
    if AsVar(l).Some? {
      AsVarSound(l, env, x);
    }
    if AsVar(r).Some? {
      AsVarSound(r, env, y);
    }
  }

  /** On an edge the store takes, every callback of the walk reports something true. */
  lemma {:induction false} WalkSound(cond: Expr, isTrue: bool, env: Store, v: int, a: Atom)
    requires Faithful(cond, env) && Evals(cond, env, v) && (v != 0) == isTrue
    requires a in Walk(cond, isTrue)
    ensures AtomHolds(a, env)
  {
    match cond
    case Paren(s) => WalkSound(s, isTrue, env, v, a);
    case ImpCast(k, s) =>
      if k.Integral? {
        var w :| Evals(s, env, w) && v == Wrap(k.to, w);
        assert k.to.width > 0;
        WrapRange(k.to, w);
        WalkSound(s, isTrue, env, w, a);
      } else {
        WalkSound(s, isTrue, env, v, a);
      }
    case BoolCast(s) =>
      var w :| Evals(s, env, w) && v == Truth(w != 0);
      WalkSound(s, isTrue, env, w, a);
    case SameTypeCast(s) => WalkSound(s, isTrue, env, v, a);
    case Expect(s) => WalkSound(s, isTrue, env, v, a);
    case IdentityCall(s) => WalkSound(s, isTrue, env, v, a);
    case VarRef(_) =>
    case AssignExpr(l, _) => AsVarSound(l, env, v);
    case Not(s) =>
      var w :| Evals(s, env, w) && v == Truth(w == 0);
      WalkSound(s, !isTrue, env, w, a);
    case LAnd(l, r) =>
      var x, y :| Evals(l, env, x) && x != 0 && Evals(r, env, y) && v == Truth(y != 0);
      if a in Walk(l, true) {
        WalkSound(l, true, env, x, a);
      } else {
        WalkSound(r, true, env, y, a);
      }
    case LOr(l, r) =>
      var y :| Evals(r, env, y) && v == Truth(y != 0);
      if a in Walk(l, false) {
        WalkSound(l, false, env, 0, a);
      } else {
        WalkSound(r, false, env, y, a);
      }
    case Compare(op, l, r) =>
      var x, y :| Evals(l, env, x) && Evals(r, env, y) && v == Truth(Relates(op, x, y));
      CompareWalkSound(op, l, r, isTrue, env, x, y, a);
  }

  /** Parentheses and value-keeping casts around anything. */
  predicate Bare(e: Expr) {
    match e
    case Paren(s) => Bare(s)
    case ImpCast(k, s) => (k.LValueToRValue? || k.NoOp?) && Bare(s)
    case _ => true
  }

  /** A variable, or an assignment to one, under those. */
  predicate PlainVar(e: Expr) {
    match e
    case Paren(s) => PlainVar(s)
    case ImpCast(k, s) => (k.LValueToRValue? || k.NoOp?) && PlainVar(s)
    case AssignExpr(l, _) => PlainVar(l)
    case VarRef(_) => true
    case _ => false
  }

  lemma {:induction false} PlainVarEvals(e: Expr, env: Store)
    requires PlainVar(e)
    ensures AsVar(e).Some? && (AsVar(e).value in env ==> Evals(e, env, env[AsVar(e).value]))
  {
    match e
    case Paren(s) => PlainVarEvals(s, env);
    case ImpCast(_, s) => PlainVarEvals(s, env);
    case AssignExpr(l, _) => PlainVarEvals(l, env);
    case VarRef(_) =>
  }

  lemma {:induction false} BareEvals(e: Expr, env: Store, v: int)
    requires Bare(e) && Evals(IgnoreParenImpCasts(e), env, v)
    ensures Evals(e, env, v)
  {
    match e
    case Paren(s) => BareEvals(s, env, v);
    case ImpCast(_, s) => BareEvals(s, env, v);
    case _ =>
  }

  /** Conditions the walk decomposes without loss on the given edge. */
  predicate Decided(cond: Expr, isTrue: bool) {
    match cond
    case Paren(s) => Decided(s, isTrue)
    case ImpCast(k, s) => (k.LValueToRValue? || k.NoOp?) && Decided(s, isTrue)
    case BoolCast(s) => Decided(s, isTrue)
    case SameTypeCast(s) => Decided(s, isTrue)
    case Expect(s) => Decided(s, isTrue)
    case IdentityCall(s) => Decided(s, isTrue)
    case VarRef(_) => true
    case AssignExpr(l, _) => PlainVar(l)
    case Not(s) => Decided(s, !isTrue)
    case LAnd(l, r) => isTrue && Decided(l, true) && Decided(r, true)
    case LOr(l, r) => !isTrue && Decided(l, false) && Decided(r, false)
    case Compare(_, l, r) => (PlainVar(l) && Bare(r)) || (PlainVar(r) && Bare(l) && AsVar(l) != AsVar(r))
    case _ => false
  }

  /** The walk skips nothing: when all its callbacks hold, the edge can be taken. */
  lemma {:induction false} WalkComplete(cond: Expr, isTrue: bool, env: Store) returns (v: int)
    requires Decided(cond, isTrue)
    requires forall a :: a in Walk(cond, isTrue) ==> AtomHolds(a, env)
    ensures Evals(cond, env, v) && (v != 0) == isTrue
  {
    match cond
    case Paren(s) => v := WalkComplete(s, isTrue, env);
    case ImpCast(_, s) => v := WalkComplete(s, isTrue, env);
    case BoolCast(s) =>
      var w := WalkComplete(s, isTrue, env);
      v := Truth(w != 0);
    case SameTypeCast(s) => v := WalkComplete(s, isTrue, env);
    case Expect(s) => v := WalkComplete(s, isTrue, env);
    case IdentityCall(s) => v := WalkComplete(s, isTrue, env);
    case VarRef(d) =>
      assert IsTruthy(d, isTrue) in Walk(cond, isTrue);
      v := env[d];
    case AssignExpr(l, _) =>
      PlainVarEvals(l, env);
      assert IsTruthy(AsVar(l).value, isTrue) in Walk(cond, isTrue);
      v := env[AsVar(l).value];
    case Not(s) =>
      var w := WalkComplete(s, !isTrue, env);
      v := Truth(w == 0);
    case LAnd(l, r) =>
      var x := WalkComplete(l, true, env);
      var y := WalkComplete(r, true, env);
      v := 1;
    case LOr(l, r) =>
      var x := WalkComplete(l, false, env);
      var y := WalkComplete(r, false, env);
      v := 0;
    case Compare(op, l, r) =>
      v := Truth(isTrue);
      CompareTaken(op, l, r, isTrue, env);
  }

  lemma CompareTaken(op: CmpOp, l: Expr, r: Expr, isTrue: bool, env: Store)
    requires Decided(Compare(op, l, r), isTrue) && forall a :: a in Walk(Compare(op, l, r), isTrue) ==> AtomHolds(a, env)
    ensures Evals(Compare(op, l, r), env, Truth(isTrue))
  {
    if PlainVar(l) && Bare(r) {
      PlainVarEvals(l, env);
      var d := AsVar(l).value;
      var a := Compares(d, op, IgnoreParenImpCasts(r), isTrue);
      assert a == Walk(Compare(op, l, r), isTrue)[0] && AtomHolds(a, env);
      var w :| Evals(a.other, env, w) && Relates(op, env[d], w) == isTrue;
      BareEvals(r, env, w);
    } else {
      PlainVarEvals(r, env);
      var d := AsVar(r).value;
      var a := Compares(d, Mirror(op), IgnoreParenImpCasts(l), isTrue);
      var atoms := Walk(Compare(op, l, r), isTrue);
      assert a == atoms[|atoms| - 1] && AtomHolds(a, env);
      var w :| Evals(a.other, env, w) && Relates(Mirror(op), env[d], w) == isTrue;
      MirrorExchanges(op, w, env[d]);
      BareEvals(l, env, w);
    }
  }

  // --- The zeroness reading of the walk ---

  /** Zeroness of a literal under minus signs: Some(true) zero, Some(false) non-zero, None not a literal. */
  function ZeroLiteral(e: Expr): Option<bool> {
    match e
    case Paren(s) => ZeroLiteral(s)
    case ImpCast(_, s) => ZeroLiteral(s)
    case IntLit(n, _) => Some(n == 0)
    case Minus(s, _) => ZeroLiteral(s)
    case _ => None
  }

  /** What one callback says about zeroness: Some(true) zero, Some(false) non-zero. */
  function ZeroReading(a: Atom): Option<bool> {
    match a
    case IsTruthy(_, t) => Some(!t)
    case Compares(_, op, other, t) =>
      var lit := ZeroLiteral(other);
      if op == EQ || op == NE then
        var eqHolds := (op == EQ) == t;
        if lit == Some(true) then Some(eqHolds)
        else if lit == Some(false) && eqHolds then Some(false)
        else None
      else if lit != Some(true) then None
      else if op == GT || op == LT then if t then Some(false) else None
      else if !t then Some(false) else None
  }

  lemma {:induction false} ZeroLiteralSound(e: Expr, env: Store, v: int)
    requires Faithful(e, env) && Evals(e, env, v) && ZeroLiteral(e).Some?
    ensures ZeroLiteral(e).value <==> v == 0
  {
    match e
    case Paren(s) => ZeroLiteralSound(s, env, v);
    case ImpCast(k, s) =>
      if k.Integral? {
        var w :| Evals(s, env, w) && v == Wrap(k.to, w);
        assert k.to.width > 0;
        WrapRange(k.to, w);
        ZeroLiteralSound(s, env, w);
      } else {
        ZeroLiteralSound(s, env, v);
      }
    case IntLit(_, _) =>
    case Minus(s, _) => ZeroLiteralSound(s, env, -v);
  }

  /** Zero and some other value both fit what the callback says of w. */
  predicate ZeroOpen(op: CmpOp, w: int, holds: bool) {
    Relates(op, 0, w) == holds && (Relates(op, 1, w) == holds || Relates(op, -1, w) == holds)
  }

  /**
   The zeroness reading is sound; truth tests always decide it, and comparisons with zero, and
   equalities with any literal, whenever they decide it at all.
   */
  lemma ZeroReadingExact(a: Atom, env: Store)
    requires AtomHolds(a, env)
    ensures ZeroReading(a).Some? ==> (ZeroReading(a).value <==> env[a.decl] == 0)
    ensures a.IsTruthy? ==> ZeroReading(a).Some?
    ensures a.Compares? && ZeroReading(a).None? && ZeroLiteral(a.other) == Some(true) ==> ZeroOpen(a.cmp, 0, a.holds)
    ensures a.Compares? && ZeroReading(a).None? && (a.cmp == EQ || a.cmp == NE) ==>
              forall w :: Evals(a.other, env, w) && ZeroLiteral(a.other).Some? ==> ZeroOpen(a.cmp, w, a.holds)
  {
    if a.Compares? {
      var w :| Evals(a.other, env, w) && Relates(a.cmp, env[a.decl], w) == a.holds;
      forall v | Evals(a.other, env, v) && ZeroLiteral(a.other).Some?
        ensures ZeroLiteral(a.other).value <==> v == 0
      {
        ZeroLiteralSound(a.other, env, v);
      }
    }
  }

  // --- Refinement on an edge ---

  function ConstrainBy(i: Interval, op: CmpOp, c: int64): Interval {
    match op
    case LT => I.ConstrainLt(i, c)
    case LE => I.ConstrainLe(i, c)
    case GT => I.ConstrainGt(i, c)
    case GE => I.ConstrainGe(i, c)
    case EQ => I.ConstrainEq(i, c)
    case NE => I.ConstrainNe(i, c)
  }

  /** `x < INT64_MIN` and `x > INT64_MAX` are taken to be impossible. */
  predicate BeyondInt64(op: CmpOp, c: int64) {
    (op == LT && c == MIN64) || (op == GT && c == MAX64)
  }

  /**
   A comparison with a constant keeps exactly the members that satisfy it, except that `!=`
   can only trim an end point; no member is ever added. The only members wrongly dropped lie
   outside the 64-bit range.
   */
  lemma ConstrainExact(i: Interval, op: CmpOp, c: int64, v: int)
    ensures ConstrainBy(i, op, c).Contains(v) ==> i.Contains(v)
    ensures op != NE ==> ConstrainBy(i, op, c).Contains(v) ==> Relates(op, v, c as int)
    ensures i.Contains(v) && Relates(op, v, c as int) ==>
              (ConstrainBy(i, op, c).Contains(v) <==> !BeyondInt64(op, c))
    ensures BeyondInt64(op, c) && Relates(op, v, c as int) ==> !Fits(v)
  {
  }

  /** `!=` trims as much as an interval with 64-bit bounds can express. */
  lemma ConstrainNeIsHull(i: Interval, c: int64)
    requires i.Between? && i.Singleton() != Some(c)
    ensures I.Hull(I.ConstrainNe(i, c), (v: int) => i.Contains(v) && v != c as int)
  {
    var r, s := I.ConstrainNe(i, c), (v: int) => i.Contains(v) && v != c as int;
    forall j: Interval | I.Covers(j, s)
      ensures I.Subset(r, j)
    {
      NeWitnesses(i, c, j);
      I.SubsetBounds(r, j);
    }
  }

  function Min(x: int, y: int): int {
    if x < y then x else y
  }

  function Max(x: int, y: int): int {
    if x < y then y else x
  }

  lemma NeWitnesses(i: Interval, c: int64, j: Interval)
    requires i.Between? && i.Singleton() != Some(c)
    requires forall v :: i.Contains(v) && v != c as int ==> j.Contains(v)
    ensures j.Between?
    ensures var r := I.ConstrainNe(i, c);
            && r.Between?
            && (j.lo.Finite? ==> r.lo.Finite? && j.lo.v <= r.lo.v)
            && (j.hi.Finite? ==> r.hi.Finite? && r.hi.v <= j.hi.v)
  {
    var r, k, m := I.ConstrainNe(i, c), c as int, I.Member(i);
    assert i.Contains(m) && (m == k ==> i.Contains(k - 1) || i.Contains(k + 1));
    if i.lo.Infinite? {
      var x := Min(Min(m, k), if j.lo.Finite? then j.lo.v as int else 0) - 1;
      assert i.Contains(x);
    } else {
      assert i.Contains(i.lo.v as int) && (i.lo.v == c ==> i.Contains(k + 1));
    }
    if i.hi.Infinite? {
      var x := Max(Max(m, k), if j.hi.Finite? then j.hi.v as int else 0) + 1;
      assert i.Contains(x);
    } else {
      assert i.Contains(i.hi.v as int) && (i.hi.v == c ==> i.Contains(k - 1));
    }
  }

  function RefineByAtom(iv: IntervalMap, a: Atom, vars: set<Decl>, hasCtx: bool): IntervalMap {
    if a.decl !in vars || a.decl !in iv then iv
    else match a
      case IsTruthy(d, t) => iv[d := if t then I.ConstrainNe(iv[d], 0) else I.ConstrainEq(iv[d], 0)]
      case Compares(d, op, other, t) =>
        var c := FoldConstInt(other, hasCtx);
        if c.None? then iv
        else iv[d := ConstrainBy(iv[d], if t then op else NegateCmp(op), c.value)]
  }

  function RefineByAtoms(iv: IntervalMap, atoms: seq<Atom>, vars: set<Decl>, hasCtx: bool): IntervalMap {
    if atoms == [] then iv
    else RefineByAtoms(RefineByAtom(iv, atoms[0], vars, hasCtx), atoms[1..], vars, hasCtx)
  }

  function Refined(iv: IntervalMap, cond: Expr, isTrue: bool, vars: set<Decl>, hasCtx: bool): IntervalMap {
    RefineByAtoms(iv, Walk(cond, isTrue), vars, hasCtx)
  }

  lemma RefineByAtomSound(iv: IntervalMap, a: Atom, vars: set<Decl>, hasCtx: bool, env: Store)
    requires Describes(iv, env) && WellTyped(env) && AtomHolds(a, env)
    ensures Describes(RefineByAtom(iv, a, vars, hasCtx), env)
  {
    if a.decl in iv && a.decl in vars {
      var v := env[a.decl];
      assert iv[a.decl].Contains(v) && Fits(v);
      match a {
        case IsTruthy(d, t) => ConstrainExact(iv[d], if t then NE else EQ, 0, v);
        case Compares(d, op, other, t) =>
          if FoldConstInt(other, hasCtx).Some? {
            var w :| Evals(other, env, w) && Relates(op, v, w) == t;
            FoldConstSound(other, hasCtx, env, w);
            NegateCmpComplements(op, v, w);
            ConstrainExact(iv[d], if t then op else NegateCmp(op), FoldConstInt(other, hasCtx).value, v);
          }
      }
    }
  }

  lemma {:induction false} RefineByAtomsSound(iv: IntervalMap, atoms: seq<Atom>, vars: set<Decl>, hasCtx: bool, env: Store)
    requires Describes(iv, env) && WellTyped(env) && forall a :: a in atoms ==> AtomHolds(a, env)
    ensures Describes(RefineByAtoms(iv, atoms, vars, hasCtx), env)
  {
    if atoms != [] {
      RefineByAtomSound(iv, atoms[0], vars, hasCtx, env);
      RefineByAtomsSound(RefineByAtom(iv, atoms[0], vars, hasCtx), atoms[1..], vars, hasCtx, env);
    }
  }

  /** Edge refinement is sound: a store that takes the edge is still described afterwards. */
  lemma RefinedSound(iv: IntervalMap, cond: Expr, isTrue: bool, vars: set<Decl>, hasCtx: bool, env: Store)
    requires Describes(iv, env) && WellTyped(env) && Faithful(cond, env) && Branches(cond, env, isTrue)
    ensures Describes(Refined(iv, cond, isTrue, vars, hasCtx), env)
  {
    var v :| Evals(cond, env, v) && (v != 0) == isTrue;
    forall a | a in Walk(cond, isTrue)
      ensures AtomHolds(a, env)
    {
      WalkSound(cond, isTrue, env, v, a);
    }
    RefineByAtomsSound(iv, Walk(cond, isTrue), vars, hasCtx, env);
  }

  /** No interval of `to` is larger than in `from`. */
  ghost predicate Narrower(to: IntervalMap, from: IntervalMap) {
    to.Keys == from.Keys && forall d :: d in to ==> I.Subset(to[d], from[d])
  }

  lemma RefineByAtomReductive(iv: IntervalMap, a: Atom, vars: set<Decl>, hasCtx: bool)
    ensures Narrower(RefineByAtom(iv, a, vars, hasCtx), iv)
  {
    var r := RefineByAtom(iv, a, vars, hasCtx);
    assert r.Keys == iv.Keys;
    if a.decl in iv && r != iv {
      forall v
        ensures r[a.decl].Contains(v) ==> iv[a.decl].Contains(v)
      {
        match a
        case IsTruthy(d, t) => ConstrainExact(iv[d], if t then NE else EQ, 0, v);
        case Compares(d, op, other, t) =>
          ConstrainExact(iv[d], if t then op else NegateCmp(op), FoldConstInt(other, hasCtx).value, v);
      }
    }
  }

  lemma {:induction false} RefineByAtomsReductive(iv: IntervalMap, atoms: seq<Atom>, vars: set<Decl>, hasCtx: bool)
    ensures Narrower(RefineByAtoms(iv, atoms, vars, hasCtx), iv)
  {
    if atoms != [] {
      var next := RefineByAtom(iv, atoms[0], vars, hasCtx);
      RefineByAtomReductive(iv, atoms[0], vars, hasCtx);
      RefineByAtomsReductive(next, atoms[1..], vars, hasCtx);
      var last := RefineByAtoms(next, atoms[1..], vars, hasCtx);
      assert forall d :: d in last ==> I.Subset(last[d], next[d]) && I.Subset(next[d], iv[d]);
    }
  }

  /** Edge refinement is reductive: it only ever narrows intervals. */
  lemma RefinedReductive(iv: IntervalMap, cond: Expr, isTrue: bool, vars: set<Decl>, hasCtx: bool)
    ensures Narrower(Refined(iv, cond, isTrue, vars, hasCtx), iv)
  {
    RefineByAtomsReductive(iv, Walk(cond, isTrue), vars, hasCtx);
  }

  lemma {:induction false} LaterAtomsKeepEnforced(
    iv: IntervalMap, atoms: seq<Atom>, vars: set<Decl>, hasCtx: bool, k: nat, d: Decl, op: CmpOp, other: Expr, holds: bool)
    requires k < |atoms| && atoms[k] == Compares(d, op, other, holds)
    requires d in vars && d in iv && FoldConstInt(other, hasCtx).Some?
    requires (if holds then op else NegateCmp(op)) != NE
    ensures var r := RefineByAtoms(iv, atoms, vars, hasCtx);
            d in r && forall v :: r[d].Contains(v) ==>
              Relates(op, v, FoldConstInt(other, hasCtx).value as int) == holds
    decreases k
  {
    var next := RefineByAtom(iv, atoms[0], vars, hasCtx);
    var c := FoldConstInt(other, hasCtx).value;
    RefineByAtomReductive(iv, atoms[0], vars, hasCtx);
    if k == 0 {
      RefineByAtomsReductive(next, atoms[1..], vars, hasCtx);
      forall v | RefineByAtoms(next, atoms[1..], vars, hasCtx)[d].Contains(v)
        ensures Relates(op, v, c as int) == holds
      {
        assert next[d].Contains(v);
        ConstrainExact(iv[d], if holds then op else NegateCmp(op), c, v);
        NegateCmpComplements(op, v, c as int);
      }
    } else {
      LaterAtomsKeepEnforced(next, atoms[1..], vars, hasCtx, k - 1, d, op, other, holds);
    }
  }

  /** Every comparison with a constant that the walk finds, other than `!=`, binds the refined interval. */
  lemma RefinedEnforces(iv: IntervalMap, cond: Expr, isTrue: bool, vars: set<Decl>, hasCtx: bool, a: Atom)
    requires a in Walk(cond, isTrue) && a.Compares? && a.decl in vars && a.decl in iv
    requires FoldConstInt(a.other, hasCtx).Some? && (if a.holds then a.cmp else NegateCmp(a.cmp)) != NE
    ensures var r := Refined(iv, cond, isTrue, vars, hasCtx);
            a.decl in r && forall v :: r[a.decl].Contains(v) ==>
              Relates(a.cmp, v, FoldConstInt(a.other, hasCtx).value as int) == a.holds
  {
    var atoms := Walk(cond, isTrue);
    var k :| 0 <= k < |atoms| && atoms[k] == a;
    LaterAtomsKeepEnforced(iv, atoms, vars, hasCtx, k, a.decl, a.cmp, a.other, a.holds);
  }

  // --- Assignment transfer ---

  function Put(iv: IntervalMap, d: Decl, i: Interval, vars: set<Decl>): IntervalMap {
    if d in vars then iv[d := i] else iv
  }

  function AssignedDecls(iv: IntervalMap, decls: seq<Init>, vars: set<Decl>, hasCtx: bool): IntervalMap
    decreases |decls|
  {
    if decls == [] then iv
    else
      var i := if decls[0].init.Some? then EvalInterval(decls[0].init.value, iv, hasCtx) else I.Top;
      AssignedDecls(Put(iv, decls[0].decl, i, vars), decls[1..], vars, hasCtx)
  }

  /** What a declared untrusted source leaves in an output argument: nothing is stored without a finite type range. */
  function SeedOf(d: Decl, seedTypes: bool): Option<Interval> {
    if seedTypes then TypeRange(d.ty) else Some(I.Top)
  }

  function AssignedRefs(iv: IntervalMap, refs: set<Decl>, vars: set<Decl>, seedTypes: bool): IntervalMap {
    map d | d in iv.Keys + (refs * vars) && (d in iv || SeedOf(d, seedTypes).Some?) ::
      if d in refs * vars && SeedOf(d, seedTypes).Some? then SeedOf(d, seedTypes).value else iv[d]
  }

  function Assigned(iv: IntervalMap, s: Stmt, vars: set<Decl>, hasCtx: bool): IntervalMap {
    match s
    case DeclStmt(decls) => AssignedDecls(iv, decls, vars, hasCtx)
    case Assign(x, e) => Put(iv, x, EvalInterval(e, iv, hasCtx), vars)
    case CompoundAssign(x) => Put(iv, x, I.Top, vars)
    case IncDec(x) => Put(iv, x, I.Top, vars)
    case Call(_, _, refs, untrusted) => AssignedRefs(iv, refs, vars, untrusted && hasCtx)
    case OtherStmt => iv
  }

  predicate SignedLiteralsInStmt(s: Stmt) {
    match s
    case DeclStmt(decls) => forall i :: i in decls && i.init.Some? ==> SignedLiterals(i.init.value)
    case Assign(_, e) => SignedLiterals(e)
    case _ => true
  }

  /** An untrusted source writes only tracked variables whose type range the engine can seed. */
  predicate Seedable(s: Stmt, vars: set<Decl>) {
    s.Call? && s.untrusted ==> forall d :: d in s.refArgs && d in vars ==> TypeRange(d.ty).Some?
  }

  lemma {:induction false} AssignedDeclsSound(
    iv: IntervalMap, decls: seq<Init>, vars: set<Decl>, hasCtx: bool, env: Store, env': Store)
    requires Describes(iv, env) && iv.Keys == vars && InitSteps(decls, env, env')
    requires forall i :: i in decls && i.init.Some? ==> SignedLiterals(i.init.value)
    ensures var r := AssignedDecls(iv, decls, vars, hasCtx); r.Keys == vars && Describes(r, env')
    decreases |decls|
  {
    if decls != [] {
      var mid: Store :| InitStep(decls[0], env, mid) && InitSteps(decls[1..], mid, env');
      var first := decls[0];
      if first.init.Some? {
        EvalIntervalSound(first.init.value, iv, hasCtx, env, mid[first.decl]);
      }
      var i := if first.init.Some? then EvalInterval(first.init.value, iv, hasCtx) else I.Top;
      AssignedDeclsSound(Put(iv, first.decl, i, vars), decls[1..], vars, hasCtx, mid, env');
    }
  }

  /** The transfer of one statement describes every store the statement can produce. */
  lemma AssignedSound(iv: IntervalMap, s: Stmt, vars: set<Decl>, env: Store, env': Store)
    requires Describes(iv, env) && iv.Keys == vars && Step(s, env, env')
    requires SignedLiteralsInStmt(s) && Seedable(s, vars)
    ensures Assigned(iv, s, vars, true).Keys == vars && Describes(Assigned(iv, s, vars, true), env')
  {
    match s
    case DeclStmt(decls) => AssignedDeclsSound(iv, decls, vars, true, env, env');
    case Assign(x, e) => EvalIntervalSound(e, iv, true, env, env'[x]);
    case Call(_, _, refs, untrusted) =>
      var r := Assigned(iv, s, vars, true);
      forall d | d in r && d in env'
        ensures r[d].Contains(env'[d])
      {
        if d in refs {
          assert InType(d.ty, env'[d]);
        }
      }
    case _ =>
  }

  /** The transfer describes every outcome of the statement, from every described store. */
  ghost predicate TransferSound(s: Stmt, vars: set<Decl>) {
    forall iv: IntervalMap, env: Store, env': Store ::
      iv.Keys == vars && Describes(iv, env) && Step(s, env, env') ==> Describes(Assigned(iv, s, vars, true), env')
  }

  /**
   The transfer is sound exactly when an untrusted call writes no tracked variable without a
   finite type range: such a variable keeps its old interval. The failing input is a variable
   passed by non-const reference; for `&x` the address-of element before the call has already
   set x to top.
   */
  lemma TransferSoundExact(s: Stmt, vars: set<Decl>)
    requires SignedLiteralsInStmt(s) && (s.Call? ==> forall d :: d in s.refArgs ==> d.ty.width > 0)
    ensures TransferSound(s, vars) <==> Seedable(s, vars)
  {
    if Seedable(s, vars) {
      forall iv: IntervalMap, env: Store, env': Store | iv.Keys == vars && Describes(iv, env) && Step(s, env, env')
        ensures Describes(Assigned(iv, s, vars, true), env')
      {
        AssignedSound(iv, s, vars, env, env');
      }
    } else {
      var d :| d in s.refArgs && d in vars && TypeRange(d.ty).None?;
      UnseededKeepsInterval(s, vars, d);
    }
  }

  /** The variable held 0, the call stores 1, and the interval stays [0, 0]. */
  lemma UnseededKeepsInterval(s: Stmt, vars: set<Decl>, d: Decl)
    requires s.Call? && s.untrusted && d in s.refArgs && d in vars && TypeRange(d.ty).None? && d.ty.width > 0
    ensures !TransferSound(s, vars)
  {
    var iv: IntervalMap := map x | x in vars :: if x == d then I.Constant(0) else I.Top;
    var env: Store, env': Store := map[d := 0], map[d := 1];
    UnseededHolds(d);
    hide InType, TypeRange;
    assert iv.Keys == vars && Describes(iv, env) && Step(s, env, env');
    assert Assigned(iv, s, vars, true)[d] == I.Constant(0);
    assert !Describes(Assigned(iv, s, vars, true), env');
  }

  lemma UnseededHolds(d: Decl)
    requires TypeRange(d.ty).None? && d.ty.width > 0
    ensures Holdable(d, 0) && Holdable(d, 1)
  {
    var w := if d.ty.signed then d.ty.width - 1 else d.ty.width;
    Pow2Monotone(1, w);
    assert Pow2(1) == 2;
    Pow2Positive(w);
  }

  // --- Merge and widening of interval maps ---

  function Merged(a: IntervalMap, b: IntervalMap): IntervalMap {
    map d | d in a.Keys + b.Keys ::
      if d in a && d in b then I.Join(a[d], b[d]) else if d in a then a[d] else b[d]
  }

  function Widened(iv: IntervalMap): IntervalMap {
    map d | d in iv :: if iv[d].Singleton().Some? then iv[d] else I.Top
  }

  lemma MergedSound(a: IntervalMap, b: IntervalMap, env: Store)
    requires a.Keys == b.Keys && (Describes(a, env) || Describes(b, env))
    ensures Merged(a, b).Keys == a.Keys && Describes(Merged(a, b), env)
  {
    forall d | d in a
      ensures I.Subset(a[d], I.Join(a[d], b[d])) && I.Subset(b[d], I.Join(a[d], b[d]))
    {
      I.JoinIsLeast(a[d], b[d]);
    }
  }

  /** The merge describes every store that one of the sides describes. */
  ghost predicate MergeCoversBoth(a: IntervalMap, b: IntervalMap) {
    forall env: Store :: Describes(a, env) || Describes(b, env) ==> Describes(Merged(a, b), env)
  }

  predicate UnconstrainedOutside(a: IntervalMap, b: IntervalMap) {
    forall d :: d in a && d !in b ==> a[d] == I.Top
  }

  /** A missing variable means "unknown": the merge covers both sides exactly when one-sided variables are unconstrained. */
  lemma MergeCoversExact(a: IntervalMap, b: IntervalMap)
    ensures MergeCoversBoth(a, b) <==> UnconstrainedOutside(a, b) && UnconstrainedOutside(b, a)
  {
    if d :| d in a && d !in b && a[d] != I.Top {
      OneSidedFails(a, b, d);
    } else if d :| d in b && d !in a && b[d] != I.Top {
      OneSidedFails(b, a, d);
      assert Merged(a, b)[d] == Merged(b, a)[d];
    } else {
      forall env: Store, d | (Describes(a, env) || Describes(b, env)) && d in Merged(a, b) && d in env
        ensures Merged(a, b)[d].Contains(env[d])
      {
        if d in a && d in b {
          I.JoinIsLeast(a[d], b[d]);
          assert I.Subset(a[d], I.Join(a[d], b[d])) && I.Subset(b[d], I.Join(a[d], b[d]));
        }
      }
    }
  }

  lemma OneSidedFails(a: IntervalMap, b: IntervalMap, d: Decl)
    requires d in a && d !in b && a[d] != I.Top
    ensures exists env: Store :: env.Keys == {d} && Describes(b, env) && !a[d].Contains(env[d])
    ensures !MergeCoversBoth(a, b) && !MergeCoversBoth(b, a)
  {
    var i := a[d];
    var v: int := if i.Bottom? then 0 else if i.lo.Finite? then i.lo.v as int - 1 else i.hi.v as int + 1;
    var env: Store := map[d := v];
    assert Describes(b, env) && !a[d].Contains(env[d]);
    assert d in Merged(a, b) && Merged(a, b)[d] == a[d] && d in Merged(b, a) && Merged(b, a)[d] == a[d];
    assert !Describes(Merged(a, b), env) && !Describes(Merged(b, a), env);
  }
}
