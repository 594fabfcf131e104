/**
 What guarded disjuncts retain, exactly: the facts a condition leaves behind, the facts an
 assignment erases and stamps, and the disjuncts a join keeps apart.
 */
module GuardedExact {
  import opened Int64
  import opened Ast
  import IntervalEval
  import opened PathFacts
  import opened Guarded
  import opened GuardedRefine
  import opened GuardedAnalysis
  import IntervalExact
  import EngineExact
  import D = Dataflow
  import W = WideningDrain
  import IA = IntervalAnalysis

  // --- Which conditions have a fact ---

  /** The expression is a keyable variable under parentheses and implicit casts. */
  predicate Keyable(e: Expr, unkeyable: set<Decl>) {
    var core := IgnoreParenImpCasts(e);
    core.VarRef? && !core.decl.isVolatile && core.decl !in unkeyable
  }

  /** A keyable variable is a fact as a condition, and so is its comparison with a literal unless the type alone decides it. */
  lemma {:induction false} ComparisonKeyed(op: CmpOp, l: Expr, r: Expr, unkeyable: set<Decl>, env: Store, c: int)
    requires Keyable(l, unkeyable) && !Keyable(r, unkeyable)
    requires IntervalExact.SignedLiteral(r) && Faithful(r, env) && Evals(r, env, c)
    ensures var d := IgnoreParenImpCasts(l).decl;
            && (ConditionFact(Compare(op, l, r), unkeyable).None? <==> !d.ty.signed && c == 0 && (op == LT || op == GE))
            && (ConditionFact(Compare(op, r, l), unkeyable).None? <==> !d.ty.signed && c == 0 && (op == GT || op == LE))
  {
    IntervalExact.SignedLiteralReads(r, env, c);
    IntervalEval.ConstIntSound(r, env, c);
  }

  lemma {:induction false} VariableKeyed(e: Expr, unkeyable: set<Decl>)
    requires Keyable(e, unkeyable)
    ensures ConditionFact(e, unkeyable) == Some((FactKey(IgnoreParenImpCasts(e).decl, KeyEQ, 0), false))
    ensures ConditionFact(Not(e), unkeyable) == Some((FactKey(IgnoreParenImpCasts(e).decl, KeyEQ, 0), true))
  {
    match e
    case Paren(s) => VariableKeyed(s, unkeyable);
    case ImpCast(_, s) => VariableKeyed(s, unkeyable);
    case VarRef(_) =>
  }

  /** A comparison and its negation ask the same question. */
  lemma NegationSharesKey(d: Decl, op: CmpOp, lit: int64, varOnLeft: bool)
    ensures var yes, no := NormalizeCompare(d, op, lit, varOnLeft), NormalizeCompare(d, NegateCmp(op), lit, varOnLeft);
            && (yes.Some? <==> no.Some?)
            && (yes.Some? ==> no.value.0 == yes.value.0 && no.value.1 == !yes.value.1)
  {
  }

  /** The outcome of a comparison of the value v with zero. */
  predicate WithZero(op: CmpOp, varOnLeft: bool, v: int) {
    if varOnLeft then Relates(op, v, 0) else Relates(op, 0, v)
  }

  /** So do all comparisons of an unsigned variable with zero that mean the same. */
  lemma ZeroComparisonsShareKey(d: Decl, op: CmpOp, same: CmpOp, opOnLeft: bool, sameOnLeft: bool)
    requires !d.ty.signed && forall v: nat :: WithZero(op, opOnLeft, v) == WithZero(same, sameOnLeft, v)
    ensures NormalizeCompare(d, op, 0, opOnLeft) == NormalizeCompare(d, same, 0, sameOnLeft)
  {
    assert WithZero(op, opOnLeft, 0) == WithZero(same, sameOnLeft, 0);
    assert WithZero(op, opOnLeft, 1) == WithZero(same, sameOnLeft, 1);
  }

  /** Expressions of an unsigned type. */
  predicate UnsignedForm(e: Expr) {
    match e
    case VarRef(d) => !d.ty.signed
    case IntLit(_, ty) => !ty.signed
    case Minus(_, ty) => !ty.signed
    case Arith(_, _, _, ty) => !ty.signed
    case UntrustedCall(ty) => !ty.signed
    case BoolCast(_) => true
    case ImpCast(Integral(to), _) => !to.signed
    case ImpCast(LValueToRValue, s) => UnsignedForm(s)
    case ImpCast(NoOp, s) => UnsignedForm(s)
    case Paren(s) => UnsignedForm(s)
    case SameTypeCast(s) => UnsignedForm(s)
    case Plus(s) => UnsignedForm(s)
    case Comma(_, r) => UnsignedForm(r)
    case AssignExpr(l, _) => UnsignedForm(l)
    case IdentityCall(s) => UnsignedForm(s)
    case _ => false
  }

  lemma {:induction false} UnsignedTyped(e: Expr)
    requires UnsignedForm(e)
    ensures HasUnsignedType(e)
  {
    match e
    case ImpCast(LValueToRValue, s) => UnsignedTyped(s);
    case ImpCast(NoOp, s) => UnsignedTyped(s);
    case Paren(s) => UnsignedTyped(s);
    case SameTypeCast(s) => UnsignedTyped(s);
    case Plus(s) => UnsignedTyped(s);
    case Comma(_, r) => UnsignedTyped(r);
    case AssignExpr(l, _) => UnsignedTyped(l);
    case IdentityCall(s) => UnsignedTyped(s);
    case _ =>
  }

  /** `X < n` and `n > X` with X and the keyable n unsigned both say that n is not zero. */
  lemma StrictBoundKeyed(x: Expr, y: Expr, unkeyable: set<Decl>)
    requires Keyable(y, unkeyable) && UnsignedForm(y) && UnsignedForm(IgnoreParenImpCasts(x))
    ensures var key := FactKey(IgnoreParenImpCasts(y).decl, KeyEQ, 0);
            && UnsignedStrictUpperBoundNonzero(Compare(LT, x, y), unkeyable) == Some(key)
            && UnsignedStrictUpperBoundNonzero(Compare(GT, y, x), unkeyable) == Some(key)
  {
    UnsignedTyped(y);
    UnsignedTyped(IgnoreParenImpCasts(x));
  }

  /** Facts that speak about a condition's key refute exactly the side the condition does not go to. */
  lemma FactsRefuteExact(facts: Facts, e: Expr, wanted: bool, unkeyable: set<Decl>, env: Store, taken: bool)
    requires FactsHold(facts, unkeyable, env) && WellTyped(env) && Goes({}, e, env, taken)
    requires ConditionFact(e, unkeyable).Some? && SpeaksAbout(facts, ConditionFact(e, unkeyable).value.0)
    ensures FactsRefute(facts, e, wanted, unkeyable) <==> taken != wanted
  {
    var (key, value) := ConditionFact(e, unkeyable).value;
    ConditionFactOnEdge(e, taken, unkeyable, {}, env);
    FactsContradictExact(facts, unkeyable, key, if wanted then value else !value, env);
  }

  lemma {:induction false} StrippedBare(e: Expr)
    ensures !IgnoreParenImpCasts(e).Paren? && !IgnoreParenImpCasts(e).ImpCast?
    ensures !IgnoreParens(e).Paren? && !IgnoreImpCasts(e).ImpCast?
  {
    match e
    case Paren(s) => StrippedBare(s);
    case ImpCast(_, s) => StrippedBare(s);
    case _ =>
  }

  /** No explicit cast that keeps the branch is left around the condition whose leaves are read. */
  lemma {:induction false} BoolCastsStripped(e: Expr)
    ensures !StripBoolCasts(e).BoolCast? && !StripBoolCasts(e).SameTypeCast?
    decreases Size(e)
  {
    if e.BoolCast? || e.SameTypeCast? {
      IgnoringShrinks(e.sub);
      IgnoringShrinks(IgnoreImpCasts(e.sub));
      BoolCastsStripped(IgnoreParens(IgnoreImpCasts(e.sub)));
    }
  }

  lemma CoreBare(cond: Expr)
    ensures !Core(cond).BoolCast? && !Core(cond).SameTypeCast?
  {
    BoolCastsStripped(IgnoreParenImpCasts(cond));
  }

  // --- What a refinement records ---

  /** After a leaf with a key went the given way, the recorded facts allow no store in which it goes the other way. */
  lemma ApplyFactLeafLearns(facts: Facts, leaf: Expr, isTrue: bool, unkeyable: set<Decl>, env: Store)
    requires ConditionFact(leaf, unkeyable).Some? && ApplyFactLeaf(facts, leaf, isTrue, unkeyable).Some?
    requires FactsHold(ApplyFactLeaf(facts, leaf, isTrue, unkeyable).value, unkeyable, env) && WellTyped(env)
    ensures !Goes({}, leaf, env, !isTrue)
  {
    var (key, value) := ConditionFact(leaf, unkeyable).value;
    var r := ApplyFactLeaf(facts, leaf, isTrue, unkeyable).value;
    assert key in r && r[key] == if isTrue then value else !value;
    assert key.decl in unkeyable || FactHolds(key, r[key], env);
    if Goes({}, leaf, env, !isTrue) {
      ConditionFactOnEdge(leaf, !isTrue, unkeyable, {}, env);
    }
  }

  /** And the true edge of a strict unsigned bound none in which the bound is zero. */
  lemma ApplyFactLeafBounds(facts: Facts, leaf: Expr, unkeyable: set<Decl>, env: Store)
    requires UnsignedStrictUpperBoundNonzero(leaf, unkeyable).Some? && ApplyFactLeaf(facts, leaf, true, unkeyable).Some?
    requires FactsHold(ApplyFactLeaf(facts, leaf, true, unkeyable).value, unkeyable, env)
    ensures var n := UnsignedStrictUpperBoundNonzero(leaf, unkeyable).value.decl;
            n !in unkeyable && (n in env ==> env[n] != 0)
  {
    var k := UnsignedStrictUpperBoundNonzero(leaf, unkeyable).value;
    var r := ApplyFactLeaf(facts, leaf, true, unkeyable).value;
    assert k in r && !r[k];
    assert FactHolds(k, r[k], env) || k.decl in unkeyable;
  }

  /** The domain's values alone rule out that the leaf goes the other way. */
  ghost predicate ValuesBind<K(!new), V(!new), X(!new)>(rd: Reading<K, V, X>, h: Hooks<K, V>, leaf: Expr, isTrue: bool) {
    forall d, x {:trigger Values(rd, h.apply(d, leaf, isTrue), x)} ::
      Values(rd, h.apply(d, leaf, isTrue), x) ==> !Goes({}, leaf, rd.env(x), !isTrue)
  }

  /** The domain's hook only ever narrows values. */
  ghost predicate Narrows<K(!new), V(!new), X(!new)>(rd: Reading<K, V, X>, h: Hooks<K, V>) {
    && KeepsKeys(h)
    && forall d, e, wanted, x {:trigger Values(rd, h.apply(d, e, wanted), x)} ::
         Values(rd, h.apply(d, e, wanted), x) ==> Values(rd, d.vars, x)
  }

  /**
   The condition is decided by its leaves on the given edge: every leaf that must hold has a
   key or binds the values, and of a junction of which only one operand must hold, one is
   refuted and the other decided.
   */
  ghost predicate Learns<K(!new), V(!new), X(!new)>(
    rd: Reading<K, V, X>, h: Hooks<K, V>, d: Guarded<K, V>, cond: Expr, isTrue: bool)
    decreases Size(cond)
  {
    match Core(cond)
    case Expect(s) => Learns(rd, h, d, s, isTrue)
    case Not(s) => Learns(rd, h, d, s, !isTrue)
    case Comma(_, r) => Learns(rd, h, d, r, isTrue)
    case LAnd(l, r) => if isTrue then LearnsBoth(rd, h, d, l, r, true) else LearnsOne(rd, h, d, l, r, false)
    case LOr(l, r) => if isTrue then LearnsOne(rd, h, d, l, r, true) else LearnsBoth(rd, h, d, l, r, false)
    case leaf => ConditionFact(leaf, h.unkeyable).Some? || ValuesBind(rd, h, leaf, isTrue)
  }

  ghost predicate LearnsBoth<K(!new), V(!new), X(!new)>(
    rd: Reading<K, V, X>, h: Hooks<K, V>, d: Guarded<K, V>, l: Expr, r: Expr, value: bool)
    decreases Size(l) + Size(r), 0
  {
    var first := RefineDisjunct(h, d, l, value);
    Learns(rd, h, d, l, value) && (first.Some? ==> Learns(rd, h, first.value, r, value))
  }

  ghost predicate LearnsOne<K(!new), V(!new), X(!new)>(
    rd: Reading<K, V, X>, h: Hooks<K, V>, d: Guarded<K, V>, l: Expr, r: Expr, value: bool)
    decreases Size(l) + Size(r), 0
  {
    var leftOut := FactsRefute(d.facts, l, value, h.unkeyable) || h.refutes(d, l, value);
    var rightOut := FactsRefute(d.facts, r, value, h.unkeyable) || h.refutes(d, r, value);
    (leftOut && (rightOut || Learns(rd, h, d, r, value))) || (rightOut && Learns(rd, h, d, l, value))
  }

  lemma ApplyLeafNarrows<K(!new), V(!new), X(!new)>(rd: Reading<K, V, X>, h: Hooks<K, V>, d: Guarded<K, V>, leaf: Expr, isTrue: bool, x: X)
    requires Narrows(rd, h) && ApplyLeaf(h, d, leaf, isTrue).Some? && Values(rd, ApplyLeaf(h, d, leaf, isTrue).value.vars, x)
    ensures Values(rd, d.vars, x)
  {
    var facts := ApplyLeaf(h, d, leaf, isTrue).value.facts;
    assert Values(rd, h.apply(d.(facts := facts), leaf, isTrue), x);
    hide Refutes, ApplyFactLeaf;
  }

  /** States whose values the refined disjunct covers were covered before. */
  ghost predicate Tighter<K, V, X>(rd: Reading<K, V, X>, d: Guarded<K, V>, r: Option<Guarded<K, V>>, x: X) {
    r.Some? && Values(rd, r.value.vars, x) ==> Values(rd, d.vars, x)
  }

  lemma TighterTransitive<K, V, X>(rd: Reading<K, V, X>, d: Guarded<K, V>, first: Guarded<K, V>, r: Option<Guarded<K, V>>, x: X)
    requires Tighter(rd, d, Some(first), x) && Tighter(rd, first, r, x)
    ensures Tighter(rd, d, r, x)
  {
  }

  lemma TighterTrivial<K, V, X>(rd: Reading<K, V, X>, d: Guarded<K, V>, x: X)
    ensures Tighter(rd, d, None, x) && Tighter(rd, d, Some(d), x)
  {
  }

  lemma LeafTighter<K(!new), V(!new), X(!new)>(rd: Reading<K, V, X>, h: Hooks<K, V>, d: Guarded<K, V>, leaf: Expr, isTrue: bool, x: X)
    requires Narrows(rd, h)
    ensures Tighter(rd, d, ApplyLeaf(h, d, leaf, isTrue), x)
  {
    hide Narrows, Values, ApplyLeaf;
    var r := ApplyLeaf(h, d, leaf, isTrue);
    if r.Some? && Values(rd, r.value.vars, x) {
      ApplyLeafNarrows(rd, h, d, leaf, isTrue, x);
    }
  }

  lemma {:induction false} RefineDisjunctNarrows<K(!new), V(!new), X(!new)>(
    rd: Reading<K, V, X>, h: Hooks<K, V>, d: Guarded<K, V>, cond: Expr, isTrue: bool, x: X)
    requires Narrows(rd, h)
    ensures Tighter(rd, d, RefineDisjunct(h, d, cond, isTrue), x)
    decreases Size(cond), 0
  {
    hide Narrows, Tighter, Core, ApplyLeaf, RefineBoth, RefineEither;
    match Core(cond)
    case Expect(s) => RefineDisjunctNarrows(rd, h, d, s, isTrue, x);
    case Not(s) => RefineDisjunctNarrows(rd, h, d, s, !isTrue, x);
    case Comma(_, r) => RefineDisjunctNarrows(rd, h, d, r, isTrue, x);
    case LAnd(l, r) => JunctionNarrows(rd, h, d, l, r, isTrue, x);
    case LOr(l, r) => JunctionNarrows(rd, h, d, l, r, isTrue, x);
    case leaf => LeafTighter(rd, h, d, leaf, isTrue, x);
  }

  lemma {:induction false} JunctionNarrows<K(!new), V(!new), X(!new)>(
    rd: Reading<K, V, X>, h: Hooks<K, V>, d: Guarded<K, V>, l: Expr, r: Expr, value: bool, x: X)
    requires Narrows(rd, h)
    ensures Tighter(rd, d, RefineBoth(h, d, l, r, value), x)
    ensures Tighter(rd, d, RefineEither(h, d, l, r, value), x)
    decreases Size(l) + Size(r), 1
  {
    hide Narrows, Tighter, RefineDisjunct, Refutes;
    TighterTrivial(rd, d, x);
    RefineDisjunctNarrows(rd, h, d, l, value, x);
    RefineDisjunctNarrows(rd, h, d, r, value, x);
    var first := RefineDisjunct(h, d, l, value);
    if first.Some? {
      RefineDisjunctNarrows(rd, h, first.value, r, value, x);
      TighterTransitive(rd, d, first.value, RefineDisjunct(h, first.value, r, value), x);
    }
  }

  /** Refining further loses neither facts nor bounds on values. */
  lemma RefinedMeans<K(!new), V(!new), X(!new)>(
    rd: Reading<K, V, X>, h: Hooks<K, V>, d: Guarded<K, V>, cond: Expr, isTrue: bool, x: X)
    requires Narrows(rd, h) && RefineDisjunct(h, d, cond, isTrue).Some? && Means(rd, RefineDisjunct(h, d, cond, isTrue).value, x)
    ensures Means(rd, d, x)
  {
    hide Values, RefineDisjunct;
    var r := RefineDisjunct(h, d, cond, isTrue).value;
    RefineDisjunctNarrows(rd, h, d, cond, isTrue, x);
    RefineDisjunctExtends(h, d, cond, isTrue);
    ExtendsFacts(d, r, rd.Ignored(), rd.env(x));
  }

  lemma LeafLearns<K(!new), V(!new), X(!new)>(
    rd: Reading<K, V, X>, h: Hooks<K, V>, d: Guarded<K, V>, leaf: Expr, isTrue: bool, x: X)
    requires h.unkeyable == rd.unkeyable && rd.stale == {}
    requires ConditionFact(leaf, h.unkeyable).Some? || ValuesBind(rd, h, leaf, isTrue)
    requires ApplyLeaf(h, d, leaf, isTrue).Some? && Means(rd, ApplyLeaf(h, d, leaf, isTrue).value, x) && WellTyped(rd.env(x))
    ensures !Goes({}, leaf, rd.env(x), !isTrue)
  {
    var r := ApplyLeaf(h, d, leaf, isTrue).value;
    assert rd.Ignored() == rd.unkeyable;
    hide ConditionFact, ApplyFactLeaf, Goes, FactsHold, WellTyped, Refutes;
    if ConditionFact(leaf, h.unkeyable).Some? {
      ApplyFactLeafLearns(d.facts, leaf, isTrue, h.unkeyable, rd.env(x));
    } else {
      assert Values(rd, h.apply(d.(facts := r.facts), leaf, isTrue), x);
    }
  }

  /**
   The converse of soundness: a disjunct refined by a condition its leaves decide covers only
   states in which the condition goes the given way, disjunction elimination included.
   */
  lemma {:induction false} RefineDisjunctLearns<K(!new), V(!new), X(!new)>(
    rd: Reading<K, V, X>, h: Hooks<K, V>, d: Guarded<K, V>, cond: Expr, isTrue: bool, x: X)
    requires h.unkeyable == rd.unkeyable && rd.stale == {} && Narrows(rd, h) && Learns(rd, h, d, cond, isTrue)
    requires RefineDisjunct(h, d, cond, isTrue).Some? && Means(rd, RefineDisjunct(h, d, cond, isTrue).value, x)
    requires WellTyped(rd.env(x))
    ensures !Goes({}, cond, rd.env(x), !isTrue)
    decreases Size(cond), 0
  {
    var env := rd.env(x);
    if Goes({}, cond, env, !isTrue) {
      hide Narrows, Means, Goes, Core, ApplyLeaf, RefineBoth, RefineEither, WellTyped, LearnsBoth, LearnsOne, ConditionFact, ValuesBind;
      CoreGoes({}, cond, env, !isTrue);
      var core := Core(cond);
      match core
      case Expect(s) => TransparentGoes({}, core, s, env, !isTrue); RefineDisjunctLearns(rd, h, d, s, isTrue, x);
      case Not(s) => NotGoes({}, s, env, !isTrue); RefineDisjunctLearns(rd, h, d, s, !isTrue, x);
      case Comma(_, r) => TransparentGoes({}, core, r, env, !isTrue); RefineDisjunctLearns(rd, h, d, r, isTrue, x);
      case LAnd(l, r) =>
        if isTrue { BothLearn(rd, h, d, core, l, r, isTrue, x); } else { OneLearns(rd, h, d, core, l, r, isTrue, x); }
      case LOr(l, r) =>
        if isTrue { OneLearns(rd, h, d, core, l, r, isTrue, x); } else { BothLearn(rd, h, d, core, l, r, isTrue, x); }
      case _ => LeafLearns(rd, h, d, core, isTrue, x);
    }
  }

  lemma {:induction false} BothLearn<K(!new), V(!new), X(!new)>(
    rd: Reading<K, V, X>, h: Hooks<K, V>, d: Guarded<K, V>, e: Expr, l: Expr, r: Expr, value: bool, x: X)
    requires h.unkeyable == rd.unkeyable && rd.stale == {} && Narrows(rd, h) && LearnsBoth(rd, h, d, l, r, value)
    requires RefineBoth(h, d, l, r, value).Some? && Means(rd, RefineBoth(h, d, l, r, value).value, x) && WellTyped(rd.env(x))
    requires e == if value then LAnd(l, r) else LOr(l, r)
    ensures !Goes({}, e, rd.env(x), !value)
    decreases Size(l) + Size(r), 1
  {
    hide Narrows, Means, Goes, RefineDisjunct, WellTyped, Learns;
    var first := RefineDisjunct(h, d, l, value).value;
    RefineDisjunctLearns(rd, h, first, r, value, x);
    RefinedMeans(rd, h, first, r, value, x);
    RefineDisjunctLearns(rd, h, d, l, value, x);
    if Goes({}, e, rd.env(x), !value) {
      OneGoes({}, e, l, r, rd.env(x), !value);
    }
  }

  lemma {:induction false} OneLearns<K(!new), V(!new), X(!new)>(
    rd: Reading<K, V, X>, h: Hooks<K, V>, d: Guarded<K, V>, e: Expr, l: Expr, r: Expr, value: bool, x: X)
    requires h.unkeyable == rd.unkeyable && rd.stale == {} && Narrows(rd, h) && LearnsOne(rd, h, d, l, r, value)
    requires RefineEither(h, d, l, r, value).Some? && Means(rd, RefineEither(h, d, l, r, value).value, x) && WellTyped(rd.env(x))
    requires e == if value then LOr(l, r) else LAnd(l, r)
    ensures !Goes({}, e, rd.env(x), !value)
    decreases Size(l) + Size(r), 1
  {
    hide Narrows, Means, Goes, RefineDisjunct, WellTyped, Learns, FactsRefute;
    if Goes({}, e, rd.env(x), !value) {
      BothGo({}, e, l, r, rd.env(x), !value);
      if FactsRefute(d.facts, l, value, h.unkeyable) || h.refutes(d, l, value) {
        RefineDisjunctLearns(rd, h, d, r, value, x);
      } else {
        RefineDisjunctLearns(rd, h, d, l, value, x);
      }
    }
  }

  /** A domain that drops refuted leaves does; otherwise only contradicted facts drop a disjunct. */
  lemma LeafDropped<K(!new), V(!new)>(h: Hooks<K, V>, d: Guarded<K, V>, leaf: Expr, isTrue: bool)
    ensures h.leafDrop && h.refutes(d, leaf, isTrue) ==> ApplyLeaf(h, d, leaf, isTrue).None?
    ensures ConditionFact(leaf, h.unkeyable).None? && UnsignedStrictUpperBoundNonzero(leaf, h.unkeyable).None? &&
            !(h.leafDrop && h.refutes(d, leaf, isTrue)) ==>
              ApplyLeaf(h, d, leaf, isTrue) == Some(Guarded(d.facts, h.apply(d, leaf, isTrue)))
  {
    assert d.(facts := d.facts) == d;
  }

  // --- What a join keeps apart ---

  /** The fact maps of the disjuncts. */
  ghost function FactMaps<K, V>(s: State<K, V>): set<Facts> {
    set d | d in s :: d.facts
  }

  /** f and only f is recorded by every disjunct with the value v. */
  ghost predicate Unanimous<K, V>(s: State<K, V>, k: FactKey, v: bool) {
    forall i :: 0 <= i < |s| ==> k in s[i].facts && s[i].facts[k] == v
  }

  lemma {:induction false} MergeRunsMaps<K, V>(ops: Ops<K, V>, acc: State<K, V>, s: State<K, V>)
    ensures FactMaps(MergeRuns(ops, acc, s)) == FactMaps(acc) + FactMaps(s)
    decreases |s|
  {
    if s != [] {
      var n := |acc|;
      assert s == [s[0]] + s[1..];
      MapsConcat([s[0]], s[1..]);
      MapsOne(s[0]);
      if n > 0 && acc[n - 1].facts == s[0].facts {
        var joined := MeetInto(ops, acc[n - 1], s[0]);
        assert acc == acc[..n - 1] + [acc[n - 1]];
        MapsConcat(acc[..n - 1], [acc[n - 1]]);
        MapsConcat(acc[..n - 1], [joined]);
        MapsOne(acc[n - 1]);
        MapsOne(joined);
        MergeRunsMaps(ops, acc[..n - 1] + [joined], s[1..]);
      } else {
        MapsConcat(acc, [s[0]]);
        MergeRunsMaps(ops, acc + [s[0]], s[1..]);
      }
    }
  }

  lemma MapsConcat<K, V>(a: State<K, V>, b: State<K, V>)
    ensures FactMaps(a + b) == FactMaps(a) + FactMaps(b)
  {
  }

  lemma MapsOne<K, V>(d: Guarded<K, V>)
    ensures FactMaps([d]) == {d.facts}
  {
  }

  lemma {:induction false} DistinctMaps<K(!new), V(!new)>(ops: Ops<K, V>, s: State<K, V>)
    requires Ordered(ops) && Increasing(ops, s)
    ensures |FactMaps(s)| == |s|
  {
    if s != [] {
      var n := |s| - 1;
      var before := s[..n];
      assert s == before + [s[n]];
      MapsConcat(before, [s[n]]);
      MapsOne(s[n]);
      DistinctMaps(ops, before);
      forall d | d in before
        ensures d.facts != s[n].facts
      {
        var i :| 0 <= i < n && before[i] == d;
        assert ops.factsLess(s[i].facts, s[n].facts);
      }
    }
  }

  lemma {:induction false} CollapseUnanimous<K, V>(ops: Ops<K, V>, acc: Guarded<K, V>, s: State<K, V>, k: FactKey, v: bool)
    ensures var r := Collapse(ops, acc, s).facts;
            (k in r && r[k] == v) <==> (k in acc.facts && acc.facts[k] == v && Unanimous(s, k, v))
    decreases |s|
  {
    if s != [] {
      var next := Guarded(CommonFacts(acc.facts, s[0].facts), Combine(acc.vars, s[0].vars, ops.merge));
      CollapseUnanimous(ops, next, s[1..], k, v);
      if Unanimous(s[1..], k, v) && k in s[0].facts && s[0].facts[k] == v {
        forall i | 0 <= i < |s|
          ensures k in s[i].facts && s[i].facts[k] == v
        {
          assert i > 0 ==> s[i] == s[1..][i - 1];
        }
      } else if Unanimous(s, k, v) {
        forall i | 0 <= i < |s[1..]|
          ensures k in s[1..][i].facts && s[1..][i].facts[k] == v
        {
          assert s[1..][i] == s[i + 1];
        }
      }
    }
  }

  lemma SortedMaps<K(!new), V(!new)>(ops: Ops<K, V>, s: State<K, V>)
    requires Ordered(ops)
    ensures FactMaps(Sort(ops, s)) == FactMaps(s)
  {
    SortKeepsElements(ops, s);
    hide Sort, Ordered;
    forall f
      ensures f in FactMaps(Sort(ops, s)) <==> f in FactMaps(s)
    {
    }
  }

  lemma MergedMaps<K(!new), V(!new)>(ops: Ops<K, V>, s: State<K, V>)
    requires Ordered(ops)
    ensures var merged := MergeRuns(ops, [], Sort(ops, s)); FactMaps(merged) == FactMaps(s) && |merged| == |FactMaps(s)|
  {
    SortSorts(ops, s);
    MergeRunsIncreasing(ops, [], Sort(ops, s));
    MergeRunsMaps(ops, [], Sort(ops, s));
    SortedMaps(ops, s);
    var none: State<K, V> := [];
    assert FactMaps(none) == {};
    hide Sort, Ordered, MergeRuns;
    DistinctMaps(ops, MergeRuns(ops, [], Sort(ops, s)));
  }

  /**
   Up to four different fact maps are kept, each by exactly one disjunct; of more, one disjunct
   is left, with the facts all of them record alike.
   */
  lemma NormalizeKeepsFacts<K(!new), V(!new)>(ops: Ops<K, V>, s: State<K, V>)
    requires Ordered(ops)
    ensures var r, n := Normalize(ops, s), |FactMaps(s)|;
            && (n <= 4 ==> FactMaps(r) == FactMaps(s) && |r| == n)
            && (n > 4 ==> |r| == 1 && exists w, t :: r == [ops.mine(t, w)] && forall k, v :: (k in w.facts && w.facts[k] == v) <==> Unanimous(s, k, v))
  {
    MergedMaps(ops, s);
    hide Sort, MergeRuns, Ordered;
    var merged := MergeRuns(ops, [], Sort(ops, s));
    if |merged| > 4 {
      var w := Collapse(ops, merged[0], merged[1..]);
      assert Normalize(ops, s) == [ops.mine(merged, w)];
      forall k, v
        ensures (k in w.facts && w.facts[k] == v) <==> Unanimous(s, k, v)
      {
        CollapseUnanimous(ops, merged[0], merged[1..], k, v);
        UnanimousMaps(merged, k, v);
        UnanimousMaps(s, k, v);
        assert merged == [merged[0]] + merged[1..];
        UnanimousCons(merged[0], merged[1..], k, v);
      }
    }
  }

  lemma UnanimousMaps<K, V>(s: State<K, V>, k: FactKey, v: bool)
    ensures Unanimous(s, k, v) <==> forall f :: f in FactMaps(s) ==> k in f && f[k] == v
  {
    if forall f :: f in FactMaps(s) ==> k in f && f[k] == v {
      forall i | 0 <= i < |s|
        ensures k in s[i].facts && s[i].facts[k] == v
      {
        assert s[i] in s;
        assert s[i].facts in FactMaps(s);
      }
    }
  }

  lemma UnanimousCons<K, V>(d: Guarded<K, V>, s: State<K, V>, k: FactKey, v: bool)
    ensures Unanimous([d] + s, k, v) <==> k in d.facts && d.facts[k] == v && Unanimous(s, k, v)
  {
    UnanimousMaps([d] + s, k, v);
    UnanimousMaps(s, k, v);
    MapsConcat([d], s);
    MapsOne(d);
  }

  /** A join keeps all fact maps of both sides when there are at most four. */
  lemma MergeKeepsFacts<K(!new), V(!new)>(ops: Ops<K, V>, a: State<K, V>, b: State<K, V>)
    requires Ordered(ops) && |FactMaps(a) + FactMaps(b)| <= 4
    ensures FactMaps(Merge(ops, a, b)) == FactMaps(a) + FactMaps(b)
  {
    MapsConcat(a, b);
    NormalizeKeepsFacts(ops, a + b);
    hide Normalize, FactMaps;
  }

  // --- The values of what is kept ---

  /** d occurs once and shares its facts with no other disjunct. */
  ghost predicate Lone<K, V>(s: State<K, V>, d: Guarded<K, V>) {
    multiset(s)[d] == 1 && forall e :: e in s && e.facts == d.facts ==> e == d
  }

  lemma {:induction false} MergeRunsLone<K, V>(ops: Ops<K, V>, acc: State<K, V>, s: State<K, V>, d: Guarded<K, V>)
    requires Lone(acc + s, d)
    ensures d in MergeRuns(ops, acc, s)
    decreases |s|
  {
    hide Lone, MeetInto;
    if s == [] {
      assert acc + s == acc;
      LoneOccurs(acc, d);
    } else {
      var n := |acc|;
      assert s == [s[0]] + s[1..];
      if n > 0 && acc[n - 1].facts == s[0].facts {
        var joined := MeetInto(ops, acc[n - 1], s[0]);
        JoinedFacts(ops, acc[n - 1], s[0]);
        LoneAfterJoin(acc[..n - 1], acc[n - 1], s[0], joined, s[1..], d);
        assert acc + s == acc[..n - 1] + [acc[n - 1]] + [s[0]] + s[1..];
        MergeRunsLone(ops, acc[..n - 1] + [joined], s[1..], d);
      } else {
        assert acc + s == acc + [s[0]] + s[1..];
        MergeRunsLone(ops, acc + [s[0]], s[1..], d);
      }
    }
  }

  lemma LoneOccurs<K, V>(s: State<K, V>, d: Guarded<K, V>)
    requires Lone(s, d)
    ensures d in s
  {
    assert d in multiset(s);
  }

  lemma JoinedFacts<K, V>(ops: Ops<K, V>, a: Guarded<K, V>, b: Guarded<K, V>)
    ensures MeetInto(ops, a, b).facts == a.facts
  {
  }

  lemma LoneAfterJoin<K, V>(a: State<K, V>, x: Guarded<K, V>, y: Guarded<K, V>, joined: Guarded<K, V>, t: State<K, V>, d: Guarded<K, V>)
    requires x.facts == y.facts == joined.facts
    ensures Lone(a + [x] + [y] + t, d) ==> Lone(a + [joined] + t, d)
  {
    var before, after := a + [x] + [y] + t, a + [joined] + t;
    assert multiset(before) == multiset(a) + multiset{x} + multiset{y} + multiset(t);
    assert multiset(after) == multiset(a) + multiset{joined} + multiset(t);
    if Lone(before, d) {
      assert x in before && y in before;
      assert x.facts != d.facts;
      forall e | e in after && e.facts == d.facts
        ensures e == d
      {
        assert e in before;
      }
    }
  }

  /** Of at most four fact maps, a disjunct alone with its facts is kept as it is, values included. */
  lemma LoneKept<K(!new), V(!new)>(ops: Ops<K, V>, s: State<K, V>, d: Guarded<K, V>)
    requires Ordered(ops) && Lone(s, d) && |FactMaps(s)| <= 4
    ensures d in Normalize(ops, s)
  {
    SortSorts(ops, s);
    SortKeepsElements(ops, s);
    MergedMaps(ops, s);
    hide Sort, Ordered, MergeRuns;
    var none: State<K, V> := [];
    assert none + Sort(ops, s) == Sort(ops, s);
    MergeRunsLone(ops, [], Sort(ops, s), d);
  }

  /** Two disjuncts with the same facts become one, each value the meet of theirs under those facts. */
  lemma PairMeets<K(!new), V(!new)>(ops: Ops<K, V>, a: Guarded<K, V>, b: Guarded<K, V>, k: K)
    requires Ordered(ops) && a.facts == b.facts && k in a.vars && k in b.vars
    ensures var r := Normalize(ops, [a, b]);
            && |r| == 1 && r[0].facts == a.facts && k in r[0].vars
            && r[0].vars[k] == if Less(ops, a, b) then ops.meet(a.facts, a.vars[k], b.vars[k]) else ops.meet(a.facts, b.vars[k], a.vars[k])
  {
    LessIsStrictTotal(ops, a, b, a);
    hide Ordered, Less, Sort, MergeRuns;
    var x, y := if Less(ops, a, b) then a else b, if Less(ops, a, b) then b else a;
    PairSorted(ops, a, b);
    PairMerged(ops, x, y);
    var r := MeetInto(ops, x, y);
    assert r.vars[k] == ops.meet(x.facts, x.vars[k], y.vars[k]);
  }

  lemma PairMerged<K, V>(ops: Ops<K, V>, x: Guarded<K, V>, y: Guarded<K, V>)
    requires x.facts == y.facts
    ensures MergeRuns(ops, [], [x, y]) == [MeetInto(ops, x, y)]
  {
    hide MeetInto;
    var none: State<K, V> := [];
    assert [x, y][1..] == [y] && [y][1..] == none;
    assert none + [x] == [x] && [x][..0] == none;
    assert MergeRuns(ops, none, [x, y]) == MergeRuns(ops, [x], [y]);
    assert none + [MeetInto(ops, x, y)] == [MeetInto(ops, x, y)];
    assert MergeRuns(ops, [x], [y]) == MergeRuns(ops, [MeetInto(ops, x, y)], none);
  }

  lemma PairSorted<K, V>(ops: Ops<K, V>, a: Guarded<K, V>, b: Guarded<K, V>)
    ensures Sort(ops, [a, b]) == if Less(ops, b, a) then [b, a] else [a, b]
  {
    hide Less;
    var none: State<K, V> := [];
    assert [a, b][1..] == [b] && [b][1..] == none;
    assert Sort(ops, none) == none;
    assert Sort(ops, [b]) == Insert(ops, b, none) == [b];
    assert Sort(ops, [a, b]) == Insert(ops, a, [b]);
    assert Insert(ops, a, none) == [a];
    assert Insert(ops, a, [b]) == if Less(ops, b, a) then [b] + Insert(ops, a, none) else [a] + [b];
  }

  /** Collapsing two disjuncts merges their values, whatever else is mined. */
  lemma PairCollapses<K, V>(ops: Ops<K, V>, a: Guarded<K, V>, b: Guarded<K, V>)
    requires a.vars.Keys == b.vars.Keys
    ensures exists w :: Widen(ops, [a, b]) == [ops.mine([a, b], w)] && w.vars.Keys == a.vars.Keys &&
              forall k :: k in a.vars ==> w.vars[k] == ops.merge(a.vars[k], b.vars[k])
  {
    var w := Guarded(CommonFacts(a.facts, b.facts), Combine(a.vars, b.vars, ops.merge));
    assert [a, b][1..] == [b] && [b][1..] == [];
    assert Collapse(ops, a, [b]) == w;
  }

  // --- What an assignment does ---

  /** Facts about other variables stay, the target's go, and a stamp is the one fact about it. */
  lemma RestampedExact(facts: Facts, target: Decl, stamp: Option<int64>, k: FactKey)
    ensures var r := Restamped(facts, target, stamp);
            && (k.decl != target ==> (k in r <==> k in facts) && (k in r ==> r[k] == facts[k]))
            && (k.decl == target ==> (k in r <==> stamp.Some? && k == FactKey(target, KeyEQ, stamp.value)))
            && (stamp.Some? ==> r[FactKey(target, KeyEQ, stamp.value)])
  {
  }

  /** A variable that is given a literal is stamped with its value exactly when it is stampable. */
  lemma StampFound(stmt: Stmt, x: Decl, e: Expr, stampable: set<Decl>, env: Store, c: int)
    requires stmt == Assign(x, e) || stmt == DeclStmt([Init(x, Some(e))])
    requires IntervalExact.SignedLiteral(e) && Faithful(e, env) && Evals(e, env, c)
    ensures StampOf(stmt, stampable).Some? <==> x in stampable
    ensures x in stampable ==> StampOf(stmt, stampable).value as int == c
  {
    IntervalExact.SignedLiteralReads(e, env, c);
    IntervalEval.ConstIntSound(e, env, c);
  }

  /** An assignment erases and stamps in every disjunct, and in as many as there are different results of up to four. */
  lemma AssignmentExact<K(!new), V(!new)>(c: Client<K, V>, stmt: Stmt, s: State<K, V>, x: Decl)
    requires Ordered(c.ops) && AssignedDecl(stmt) == Some(x) && |s| <= 4
    ensures FactMaps(Transfer(c, stmt, s)) == set f | f in FactMaps(s) :: Restamped(f, x, StampOf(stmt, c.stampable))
  {
    var stamp, updated := StampOf(stmt, c.stampable), UpdateAll(c, stmt, s);
    var next := RestampAll(updated, x, stamp);
    UpdatedMaps(c, stmt, s);
    RestampedMaps(updated, x, stamp);
    FewMaps(next);
    NormalizeKeepsFacts(c.ops, next);
    if stamp.None? && !Mentions(updated, x) {
      UnmentionedKept(updated, x);
    }
    hide FactMaps, Restamped, RestampAll, Normalize, StampOf, Mentions, UpdateAll;
  }

  lemma FewMaps<K, V>(s: State<K, V>)
    ensures |FactMaps(s)| <= |s|
    decreases |s|
  {
    if s != [] {
      var n := |s| - 1;
      assert s == s[..n] + [s[n]];
      MapsConcat(s[..n], [s[n]]);
      MapsOne(s[n]);
      FewMaps(s[..n]);
    }
  }

  lemma UpdatedMaps<K, V>(c: Client<K, V>, stmt: Stmt, s: State<K, V>)
    ensures FactMaps(UpdateAll(c, stmt, s)) == FactMaps(s)
  {
    var r := UpdateAll(c, stmt, s);
    forall f
      ensures f in FactMaps(r) <==> f in FactMaps(s)
    {
      if f in FactMaps(s) {
        var i :| 0 <= i < |s| && s[i].facts == f;
        assert r[i] in r;
      }
    }
  }

  lemma RestampedMaps<K, V>(s: State<K, V>, x: Decl, stamp: Option<int64>)
    ensures FactMaps(RestampAll(s, x, stamp)) == set f | f in FactMaps(s) :: Restamped(f, x, stamp)
  {
    hide Restamped;
    var r := RestampAll(s, x, stamp);
    forall g
      ensures g in FactMaps(r) <==> g in (set f | f in FactMaps(s) :: Restamped(f, x, stamp))
    {
      if f :| f in FactMaps(s) && g == Restamped(f, x, stamp) {
        var i :| 0 <= i < |s| && s[i].facts == f;
        assert r[i] in r;
      }
    }
  }

  /** A single disjunct also takes the client's new values. */
  lemma SingleTransfer<K(!new), V(!new)>(c: Client<K, V>, stmt: Stmt, d: Guarded<K, V>)
    requires Ordered(c.ops)
    ensures var facts := if AssignedDecl(stmt).Some? then Restamped(d.facts, AssignedDecl(stmt).value, StampOf(stmt, c.stampable)) else d.facts;
            Transfer(c, stmt, [d]) == [Guarded(facts, c.update(stmt, d))]
  {
    var updated := UpdateAll(c, stmt, [d]);
    assert updated == [Guarded(d.facts, c.update(stmt, d))];
    if AssignedDecl(stmt).Some? {
      var x, stamp := AssignedDecl(stmt).value, StampOf(stmt, c.stampable);
      var next := RestampAll(updated, x, stamp);
      assert next == [Guarded(Restamped(d.facts, x, stamp), c.update(stmt, d))];
      assert Increasing(c.ops, next);
      NormalizeIdempotent(c.ops, next);
      if stamp.None? && !Mentions(updated, x) {
        UnmentionedKept(updated, x);
      }
    }
  }

  // --- Behind a branch ---

  /** Facts of the refined state, when the condition decides every disjunct. */
  lemma RefinedLearns<K(!new), V(!new)>(
    ops: Ops<K, V>, h: Hooks<K, V>, s: State<K, V>, cond: Expr, isTrue: bool, d: Guarded<K, V>, env: Store)
    requires Ordered(ops) && KeepsKeys(h) && |s| <= 4 && WellTyped(env)
    requires forall i :: 0 <= i < |s| ==> Learns(FactsReading<K, V>(h.unkeyable, {}), h, s[i], cond, isTrue)
    requires d in Refined(ops, h, s, cond, isTrue) && FactsHold(d.facts, h.unkeyable, env)
    ensures !Goes({}, cond, env, !isTrue)
  {
    var rd := FactsReading<K, V>(h.unkeyable, {});
    var kept := Kept(h, s, cond, isTrue);
    KeptExtends(h, s, cond, isTrue);
    NormalizeFacts(ops, kept);
    assert Narrows(rd, h);
    hide Ordered, KeepsKeys, Normalize, Kept, Learns, Goes, WellTyped, FactsHold, Narrows, Extends;
    var e :| e in kept && e.facts == d.facts;
    KeptFrom(h, s, cond, isTrue, e);
    var i :| 0 <= i < |s| && RefineDisjunct(h, s[i], cond, isTrue) == Some(e);
    assert h.unkeyable + {} == h.unkeyable;
    MeansIsFactsHold(h.unkeyable, {}, e, env);
    RefineDisjunctLearns(rd, h, s[i], cond, isTrue, env);
  }

  lemma {:induction false} KeptFrom<K, V>(h: Hooks<K, V>, s: State<K, V>, cond: Expr, isTrue: bool, e: Guarded<K, V>)
    requires e in Kept(h, s, cond, isTrue)
    ensures exists i :: 0 <= i < |s| && RefineDisjunct(h, s[i], cond, isTrue) == Some(e)
  {
    hide RefineDisjunct;
    var d, rest := RefineDisjunct(h, s[0], cond, isTrue), Kept(h, s[1..], cond, isTrue);
    if d != Some(e) {
      assert e in rest;
      KeptFrom(h, s[1..], cond, isTrue, e);
      var i :| 0 <= i < |s[1..]| && RefineDisjunct(h, s[1..][i], cond, isTrue) == Some(e);
      assert s[i + 1] == s[1..][i];
    }
  }

  ghost function Few<K, V>(): W.Ladder<State<K, V>> {
    W.Ladder((s: State<K, V>) => |s| <= 4, (s: State<K, V>) => true, (s: State<K, V>) => 0, 0)
  }

  /** No recorded state has more than four disjuncts. */
  lemma AtMostFour<K(!new), V(!new)>(cfg: IA.Flow, c: Client<K, V>, flags: map<Decl, int64>, fatal: Stmt -> bool, p: D.BlockId)
    requires Ordered(c.ops) && p in D.Solve(cfg, EngineHooks(c, flags, fatal)).exits
    ensures |D.Solve(cfg, EngineHooks(c, flags, fatal)).exits[p]| <= 4
  {
    OperationsKeepFour(cfg, c, flags, fatal);
    hide EngineHooks, D.Solve;
    W.ExitsOk(cfg, EngineHooks(c, flags, fatal), Few<K, V>(), p);
  }

  lemma OperationsKeepFour<K(!new), V(!new)>(cfg: IA.Flow, c: Client<K, V>, flags: map<Decl, int64>, fatal: Stmt -> bool)
    requires Ordered(c.ops)
    ensures W.KeepsOk(cfg, EngineHooks(c, flags, fatal), Few<K, V>())
  {
    hide Normalize, Ordered, Kept, Mentions, RestampAll, StampOf, AssignedDecl;
    forall s: State<K, V>
      ensures |Normalize(c.ops, s)| <= 4
    {
      NormalizeShape(c.ops, s);
    }
  }

  /** The first recorded state behind a branch is the refined exit of the branch; it is there unless flags rule the side out. */
  lemma GuardedBehindBranch<K(!new), V(!new)>(
    cfg: IA.Flow, c: Client<K, V>, flags: map<Decl, int64>, fatal: Stmt -> bool, p: D.BlockId, b: D.BlockId, onTrue: bool)
    requires IntervalExact.Behind(cfg, fatal, p, b, onTrue)
    ensures var r := D.Solve(cfg, EngineHooks(c, flags, fatal));
            var (leaf, flip) := IA.EdgeCondition(cfg.blocks[p].cond.value, false);
            && ((b, 0) in r.report <==> p in r.exits && !IA.InfeasibleByFlags(flags, leaf, onTrue != flip))
            && ((b, 0) in r.report ==> r.report[(b, 0)] == Refined(c.ops, c.hooks, r.exits[p], leaf, onTrue != flip))
  {
    var an := EngineHooks(c, flags, fatal);
    hide D.Solve, D.ComputeEntry, Refined, IA.EdgeCondition, IA.InfeasibleByFlags, Transfer, Widen, Merge;
    EngineExact.EntryBehindBranch(cfg, an, D.Solve(cfg, an).exits, p, b, onTrue);
    EngineExact.FirstRecorded(cfg, an, b);
  }

  /**
   End to end: the first recorded state behind a branch whose condition its leaves decide holds
   no disjunct whose facts a store going the other way could satisfy.
   */
  lemma BranchLearned<K(!new), V(!new)>(
    cfg: IA.Flow, c: Client<K, V>, flags: map<Decl, int64>, fatal: Stmt -> bool, p: D.BlockId, b: D.BlockId, onTrue: bool,
    d: Guarded<K, V>, env: Store)
    requires Ordered(c.ops) && KeepsKeys(c.hooks) && IntervalExact.Behind(cfg, fatal, p, b, onTrue) && WellTyped(env)
    requires var (leaf, flip) := IA.EdgeCondition(cfg.blocks[p].cond.value, false);
             forall e {:trigger Learns(FactsReading<K, V>(c.hooks.unkeyable, {}), c.hooks, e, leaf, onTrue != flip)} ::
               Learns(FactsReading<K, V>(c.hooks.unkeyable, {}), c.hooks, e, leaf, onTrue != flip)
    requires (b, 0) in D.Solve(cfg, EngineHooks(c, flags, fatal)).report
    requires d in D.Solve(cfg, EngineHooks(c, flags, fatal)).report[(b, 0)] && FactsHold(d.facts, c.hooks.unkeyable, env)
    ensures var (leaf, flip) := IA.EdgeCondition(cfg.blocks[p].cond.value, false);
            !Goes({}, leaf, env, !(onTrue != flip))
  {
    var r := D.Solve(cfg, EngineHooks(c, flags, fatal));
    var (leaf, flip) := IA.EdgeCondition(cfg.blocks[p].cond.value, false);
    hide *;
    GuardedBehindBranch(cfg, c, flags, fatal, p, b, onTrue);
    AtMostFour(cfg, c, flags, fatal, p);
    RefinedLearns(c.ops, c.hooks, r.exits[p], leaf, onTrue != flip, d, env);
  }
}
