/** Refining guarded disjuncts by a condition and updating them at an assignment: src/engine/GuardedDisjuncts.h. */
module GuardedRefine {
  import opened Int64
  import opened Ast
  import opened IntervalEval
  import opened PathFacts
  import opened Guarded

  // --- Conditions without their transparent wrappers ---

  function Size(e: Expr): (n: nat)
    ensures n > 0
  {
    match e
    case Paren(s) => 1 + Size(s)
    case ImpCast(_, s) => 1 + Size(s)
    case BoolCast(s) => 1 + Size(s)
    case SameTypeCast(s) => 1 + Size(s)
    case Minus(s, _) => 1 + Size(s)
    case Plus(s) => 1 + Size(s)
    case Not(s) => 1 + Size(s)
    case Arith(_, l, r, _) => 1 + Size(l) + Size(r)
    case Compare(_, l, r) => 1 + Size(l) + Size(r)
    case LAnd(l, r) => 1 + Size(l) + Size(r)
    case LOr(l, r) => 1 + Size(l) + Size(r)
    case Comma(l, r) => 1 + Size(l) + Size(r)
    case AssignExpr(l, r) => 1 + Size(l) + Size(r)
    case Expect(s) => 1 + Size(s)
    case IdentityCall(s) => 1 + Size(s)
    case _ => 1
  }

  function IgnoreImpCasts(e: Expr): Expr {
    match e
    case ImpCast(_, s) => IgnoreImpCasts(s)
    case _ => e
  }

  lemma {:induction false} IgnoringShrinks(e: Expr)
    ensures Size(IgnoreImpCasts(e)) <= Size(e) && Size(IgnoreParens(e)) <= Size(e) && Size(IgnoreParenImpCasts(e)) <= Size(e)
  {
    match e
    case Paren(s) => IgnoringShrinks(s);
    case ImpCast(_, s) => IgnoringShrinks(s);
    case _ =>
  }

  /** Explicit casts to bool or to the operand's own type do not change a branch. */
  function StripBoolCasts(e: Expr): Expr
    decreases Size(e)
  {
    if e.BoolCast? || e.SameTypeCast? then
      IgnoringShrinks(e.sub);
      IgnoringShrinks(IgnoreImpCasts(e.sub));
      StripBoolCasts(IgnoreParens(IgnoreImpCasts(e.sub)))
    else e
  }

  lemma {:induction false} StripBoolCastsShrinks(e: Expr)
    ensures Size(StripBoolCasts(e)) <= Size(e)
    decreases Size(e)
  {
    if e.BoolCast? || e.SameTypeCast? {
      IgnoringShrinks(e.sub);
      IgnoringShrinks(IgnoreImpCasts(e.sub));
      StripBoolCastsShrinks(IgnoreParens(IgnoreImpCasts(e.sub)));
    }
  }

  function Core(cond: Expr): (r: Expr)
    ensures Size(r) <= Size(cond)
  {
    IgnoringShrinks(cond);
    StripBoolCastsShrinks(IgnoreParenImpCasts(cond));
    StripBoolCasts(IgnoreParenImpCasts(cond))
  }

  /** The expression mentions none of the variables. */
  predicate Avoids(e: Expr, vars: set<Decl>) {
    match e
    case VarRef(d) => d !in vars
    case Paren(s) => Avoids(s, vars)
    case ImpCast(_, s) => Avoids(s, vars)
    case BoolCast(s) => Avoids(s, vars)
    case SameTypeCast(s) => Avoids(s, vars)
    case Minus(s, _) => Avoids(s, vars)
    case Plus(s) => Avoids(s, vars)
    case Not(s) => Avoids(s, vars)
    case Arith(_, l, r, _) => Avoids(l, vars) && Avoids(r, vars)
    case Compare(_, l, r) => Avoids(l, vars) && Avoids(r, vars)
    case LAnd(l, r) => Avoids(l, vars) && Avoids(r, vars)
    case LOr(l, r) => Avoids(l, vars) && Avoids(r, vars)
    case Comma(l, r) => Avoids(l, vars) && Avoids(r, vars)
    case AssignExpr(l, r) => Avoids(l, vars) && Avoids(r, vars)
    case Expect(s) => Avoids(s, vars)
    case IdentityCall(s) => Avoids(s, vars)
    case _ => true
  }

  /** A condition a branch on which can go the given way, read faithfully and asking nothing about stale variables. */
  ghost predicate Goes(stale: set<Decl>, e: Expr, env: Store, taken: bool) {
    Faithful(e, env) && Branches(e, env, taken) && Avoids(e, stale)
  }

  lemma {:induction false} StrippingAvoids(e: Expr, vars: set<Decl>)
    requires Avoids(e, vars)
    ensures Avoids(IgnoreImpCasts(e), vars) && Avoids(IgnoreParens(e), vars) && Avoids(IgnoreParenImpCasts(e), vars)
  {
    match e
    case Paren(s) => StrippingAvoids(s, vars);
    case ImpCast(_, s) => StrippingAvoids(s, vars);
    case _ =>
  }

  lemma {:induction false} IgnoreImpCastsGoes(e: Expr, env: Store, v: int)
    requires Faithful(e, env) && Evals(e, env, v)
    ensures Faithful(IgnoreImpCasts(e), env) && Evals(IgnoreImpCasts(e), env, v)
  {
    match e
    case ImpCast(k, s) =>
      if k.Integral? {
        var w :| Evals(s, env, w) && v == Wrap(k.to, w);
        assert k.to.width > 0;
        WrapRange(k.to, w);
      }
      IgnoreImpCastsGoes(s, env, v);
    case _ =>
  }

  lemma {:induction false} IgnoreParensGoes(e: Expr, env: Store, v: int)
    requires Faithful(e, env) && Evals(e, env, v)
    ensures Faithful(IgnoreParens(e), env) && Evals(IgnoreParens(e), env, v)
  {
    match e
    case Paren(s) => IgnoreParensGoes(s, env, v);
    case _ =>
  }

  lemma {:induction false} StripBoolCastsGoes(stale: set<Decl>, e: Expr, env: Store, taken: bool)
    requires Goes(stale, e, env, taken)
    ensures Goes(stale, StripBoolCasts(e), env, taken)
    decreases Size(e)
  {
    if e.BoolCast? || e.SameTypeCast? {
      var v :| Evals(e, env, v) && (v != 0) == taken;
      assert Evals(e, env, v);
      var w := v;
      if e.BoolCast? {
        w :| Evals(e.sub, env, w) && v == Truth(w != 0);
      }
      var inner := IgnoreImpCasts(e.sub);
      IgnoringShrinks(e.sub);
      IgnoringShrinks(inner);
      IgnoreImpCastsGoes(e.sub, env, w);
      IgnoreParensGoes(inner, env, w);
      StrippingAvoids(e.sub, stale);
      StrippingAvoids(inner, stale);
      assert Goes(stale, IgnoreParens(inner), env, taken);
      StripBoolCastsGoes(stale, IgnoreParens(inner), env, taken);
    }
  }

  lemma CoreGoes(stale: set<Decl>, cond: Expr, env: Store, taken: bool)
    requires Goes(stale, cond, env, taken)
    ensures Goes(stale, Core(cond), env, taken)
  {
    var v :| Evals(cond, env, v) && (v != 0) == taken;
    StrippingKeepsFaithful(cond, env);
    StrippingKeepsValue(cond, env, v);
    StrippingAvoids(cond, stale);
    StripBoolCastsGoes(stale, IgnoreParenImpCasts(cond), env, taken);
  }

  // --- Refinement ---

  /**
   What the client adds: refutes(d, e, b) when its values rule out that e is b, and the values
   after learning that e is b. leafDrop: refuted leaves drop the disjunct as well.
   */
  datatype Hooks<!K(==), !V> = Hooks(
    unkeyable: set<Decl>,
    refutes: (Guarded<K, V>, Expr, bool) -> bool,
    apply: (Guarded<K, V>, Expr, bool) -> map<K, V>,
    leafDrop: bool)

  function WithFact(facts: Facts, key: FactKey, value: bool): Option<Facts> {
    if FactsContradict(facts, key, value) then None else Some(facts[key := value])
  }

  /** Records one leaf, or finds that it contradicts what is recorded. */
  function ApplyFactLeaf(facts: Facts, leaf: Expr, isTrue: bool, unkeyable: set<Decl>): Option<Facts> {
    var bound := if isTrue then UnsignedStrictUpperBoundNonzero(leaf, unkeyable) else None;
    var bounded := if bound.Some? then WithFact(facts, bound.value, false) else Some(facts);
    var fact := ConditionFact(leaf, unkeyable);
    if bounded.None? || fact.None? then bounded
    else WithFact(bounded.value, fact.value.0, if isTrue then fact.value.1 else !fact.value.1)
  }

  predicate FactsRefute(facts: Facts, e: Expr, wanted: bool, unkeyable: set<Decl>) {
    var fact := ConditionFact(e, unkeyable);
    fact.Some? && FactsContradict(facts, fact.value.0, if wanted then fact.value.1 else !fact.value.1)
  }

  predicate Refutes<K, V>(h: Hooks<K, V>, d: Guarded<K, V>, e: Expr, wanted: bool) {
    FactsRefute(d.facts, e, wanted, h.unkeyable) || h.refutes(d, e, wanted)
  }

  function ApplyLeaf<K, V>(h: Hooks<K, V>, d: Guarded<K, V>, leaf: Expr, isTrue: bool): Option<Guarded<K, V>> {
    if h.leafDrop && Refutes(h, d, leaf, isTrue) then None
    else match ApplyFactLeaf(d.facts, leaf, isTrue, h.unkeyable)
      case None => None
      case Some(facts) => Some(Guarded(facts, h.apply(d.(facts := facts), leaf, isTrue)))
  }

  /** The disjunct after the condition went the given way; None when it cannot have. */
  function RefineDisjunct<K, V>(h: Hooks<K, V>, d: Guarded<K, V>, cond: Expr, isTrue: bool): Option<Guarded<K, V>>
    decreases Size(cond)
  {
    match Core(cond)
    case Expect(s) => RefineDisjunct(h, d, s, isTrue)
    case Not(s) => RefineDisjunct(h, d, s, !isTrue)
    case Comma(_, r) => RefineDisjunct(h, d, r, isTrue)
    case LAnd(l, r) => if isTrue then RefineBoth(h, d, l, r, true) else RefineEither(h, d, l, r, false)
    case LOr(l, r) => if isTrue then RefineEither(h, d, l, r, true) else RefineBoth(h, d, l, r, false)
    case leaf => ApplyLeaf(h, d, leaf, isTrue)
  }

  /** Both operands have the value. */
  function RefineBoth<K, V>(h: Hooks<K, V>, d: Guarded<K, V>, l: Expr, r: Expr, value: bool): Option<Guarded<K, V>>
    decreases Size(l) + Size(r), 0
  {
    match RefineDisjunct(h, d, l, value)
    case None => None
    case Some(d') => RefineDisjunct(h, d', r, value)
  }

  /** At least one operand has the value: when the disjunct refutes one, it learns the other. */
  function RefineEither<K, V>(h: Hooks<K, V>, d: Guarded<K, V>, l: Expr, r: Expr, value: bool): Option<Guarded<K, V>>
    decreases Size(l) + Size(r), 0
  {
    var leftOut, rightOut := Refutes(h, d, l, value), Refutes(h, d, r, value);
    if leftOut && rightOut then None
    else if leftOut then RefineDisjunct(h, d, r, value)
    else if rightOut then RefineDisjunct(h, d, l, value)
    else Some(d)
  }

  function Kept<K, V>(h: Hooks<K, V>, s: State<K, V>, cond: Expr, isTrue: bool): State<K, V> {
    if s == [] then []
    else
      var d := RefineDisjunct(h, s[0], cond, isTrue);
      (if d.Some? then [d.value] else []) + Kept(h, s[1..], cond, isTrue)
  }

  /** refineGuardedFactsWith and refineGuardedFactsOps. */
  function Refined<K, V(==)>(ops: Ops<K, V>, h: Hooks<K, V>, s: State<K, V>, cond: Expr, isTrue: bool): State<K, V> {
    Normalize(ops, Kept(h, s, cond, isTrue))
  }

  /** The client never rules out what a covered state does, and its new values describe that state. */
  ghost predicate HooksSound<K(!new), V(!new), X(!new)>(rd: Reading<K, V, X>, h: Hooks<K, V>) {
    && h.unkeyable == rd.unkeyable
    && (forall d, e, wanted {:trigger h.apply(d, e, wanted)} :: h.apply(d, e, wanted).Keys == d.vars.Keys)
    && (forall d, e, wanted, x {:trigger Means(rd, d, x), h.refutes(d, e, wanted)} ::
          Means(rd, d, x) && WellTyped(rd.env(x)) && Goes(rd.stale, e, rd.env(x), wanted) ==> !h.refutes(d, e, wanted))
    && (forall d, e, wanted, x {:trigger Values(rd, h.apply(d, e, wanted), x)} ::
          Means(rd, d, x) && WellTyped(rd.env(x)) && Goes(rd.stale, e, rd.env(x), wanted) ==> Values(rd, h.apply(d, e, wanted), x))
  }

  lemma WithFactSound(facts: Facts, unkeyable: set<Decl>, key: FactKey, value: bool, env: Store)
    requires FactsHold(facts, unkeyable, env)
    requires key.decl in env && key.decl !in unkeyable && KeyTrue(key, env) == value
    ensures var r := WithFact(facts, key, value); r.Some? && FactsHold(r.value, unkeyable, env)
  {
    FactsContradictExact(facts, unkeyable, key, value, env);
  }

  lemma {:induction false} ConditionFactAvoids(e: Expr, unkeyable: set<Decl>, stale: set<Decl>)
    requires Avoids(e, stale)
    ensures ConditionFact(e, unkeyable).Some? ==> ConditionFact(e, unkeyable).value.0.decl !in stale
  {
    match e
    case Paren(s) => ConditionFactAvoids(s, unkeyable, stale);
    case ImpCast(_, s) => ConditionFactAvoids(s, unkeyable, stale);
    case Not(s) => ConditionFactAvoids(s, unkeyable, stale);
    case Compare(_, l, r) => StrippingAvoids(l, stale); StrippingAvoids(r, stale);
    case _ =>
  }

  lemma BoundAvoids(e: Expr, unkeyable: set<Decl>, stale: set<Decl>)
    requires Avoids(e, stale)
    ensures UnsignedStrictUpperBoundNonzero(e, unkeyable).Some? ==>
              UnsignedStrictUpperBoundNonzero(e, unkeyable).value.decl !in stale
  {
    var core := IgnoreParenImpCasts(e);
    StrippingAvoids(e, stale);
    if core.Compare? {
      StrippingAvoids(core.lhs, stale);
      StrippingAvoids(core.rhs, stale);
    }
  }

  lemma ConditionFactOnEdge(e: Expr, taken: bool, unkeyable: set<Decl>, stale: set<Decl>, env: Store)
    requires WellTyped(env) && Goes(stale, e, env, taken) && ConditionFact(e, unkeyable).Some?
    ensures var (key, value) := ConditionFact(e, unkeyable).value;
            key.decl in env && key.decl !in unkeyable + stale && KeyTrue(key, env) == if taken then value else !value
  {
    var v :| Evals(e, env, v) && (v != 0) == taken;
    ConditionFactExact(e, unkeyable, env, v);
    ConditionFactAvoids(e, unkeyable, stale);
  }

  /** A leaf that went the given way contradicts nothing true, and what it records is true. */
  lemma ApplyFactLeafSound(facts: Facts, leaf: Expr, isTrue: bool, unkeyable: set<Decl>, stale: set<Decl>, env: Store)
    requires FactsHold(facts, unkeyable + stale, env) && WellTyped(env) && Goes(stale, leaf, env, isTrue)
    ensures var r := ApplyFactLeaf(facts, leaf, isTrue, unkeyable); r.Some? && FactsHold(r.value, unkeyable + stale, env)
  {
    hide FactsHold, WithFact;
    var bound := if isTrue then UnsignedStrictUpperBoundNonzero(leaf, unkeyable) else None;
    var bounded := facts;
    if bound.Some? {
      StrictBoundSound(leaf, unkeyable, env);
      BoundAvoids(leaf, unkeyable, stale);
      WithFactSound(facts, unkeyable + stale, bound.value, false, env);
      bounded := WithFact(facts, bound.value, false).value;
    }
    var fact := ConditionFact(leaf, unkeyable);
    if fact.Some? {
      ConditionFactOnEdge(leaf, isTrue, unkeyable, stale, env);
      WithFactSound(bounded, unkeyable + stale, fact.value.0, if isTrue then fact.value.1 else !fact.value.1, env);
    }
  }

  lemma FactsRefuteSound(facts: Facts, e: Expr, wanted: bool, unkeyable: set<Decl>, stale: set<Decl>, env: Store)
    requires FactsHold(facts, unkeyable + stale, env) && WellTyped(env) && Goes(stale, e, env, wanted)
    ensures !FactsRefute(facts, e, wanted, unkeyable)
  {
    var fact := ConditionFact(e, unkeyable);
    if fact.Some? {
      ConditionFactOnEdge(e, wanted, unkeyable, stale, env);
      FactsContradictExact(facts, unkeyable + stale, fact.value.0, if wanted then fact.value.1 else !fact.value.1, env);
    }
  }

  lemma RefutesSound<K(!new), V(!new), X(!new)>(
    rd: Reading<K, V, X>, h: Hooks<K, V>, d: Guarded<K, V>, e: Expr, wanted: bool, x: X)
    requires HooksSound(rd, h) && Means(rd, d, x) && WellTyped(rd.env(x)) && Goes(rd.stale, e, rd.env(x), wanted)
    ensures !Refutes(h, d, e, wanted)
  {
    FactsRefuteSound(d.facts, e, wanted, rd.unkeyable, rd.stale, rd.env(x));
  }

  lemma ApplyLeafSound<K(!new), V(!new), X(!new)>(
    rd: Reading<K, V, X>, h: Hooks<K, V>, d: Guarded<K, V>, leaf: Expr, isTrue: bool, x: X)
    requires HooksSound(rd, h) && Means(rd, d, x) && WellTyped(rd.env(x)) && Goes(rd.stale, leaf, rd.env(x), isTrue)
    ensures var r := ApplyLeaf(h, d, leaf, isTrue); r.Some? && Means(rd, r.value, x) && r.value.vars.Keys == d.vars.Keys
  {
    RefutesSound(rd, h, d, leaf, isTrue, x);
    ApplyFactLeafSound(d.facts, leaf, isTrue, h.unkeyable, rd.stale, rd.env(x));
    var facts := ApplyFactLeaf(d.facts, leaf, isTrue, h.unkeyable).value;
    assert Means(rd, d.(facts := facts), x);
    assert Values(rd, h.apply(d.(facts := facts), leaf, isTrue), x);
  }

  lemma NotGoes(stale: set<Decl>, s: Expr, env: Store, taken: bool)
    requires Goes(stale, Not(s), env, taken)
    ensures Goes(stale, s, env, !taken)
  {
    var v :| Evals(Not(s), env, v) && (v != 0) == taken;
    assert Evals(Not(s), env, v);
  }

  lemma TransparentGoes(stale: set<Decl>, e: Expr, s: Expr, env: Store, taken: bool)
    requires Goes(stale, e, env, taken) && (e == Expect(s) || (e.Comma? && s == e.rhs))
    ensures Goes(stale, s, env, taken)
  {
    var v :| Evals(e, env, v) && (v != 0) == taken;
    assert Evals(s, env, v);
  }

  /** `a && b` true and `a || b` false: both operands were evaluated and have that value. */
  lemma BothGo(stale: set<Decl>, e: Expr, l: Expr, r: Expr, env: Store, value: bool)
    requires Goes(stale, e, env, value) && e == (if value then LAnd(l, r) else LOr(l, r))
    ensures Goes(stale, l, env, value) && Goes(stale, r, env, value)
  {
    var v :| Evals(e, env, v) && (v != 0) == value;
    assert Evals(e, env, v);
    if value {
      var x, y :| Evals(l, env, x) && x != 0 && Evals(r, env, y) && v == Truth(y != 0);
    } else {
      var y :| Evals(l, env, 0) && Evals(r, env, y) && v == Truth(y != 0);
    }
  }

  /** `a || b` true and `a && b` false: one operand was evaluated and has that value. */
  lemma OneGoes(stale: set<Decl>, e: Expr, l: Expr, r: Expr, env: Store, value: bool)
    requires Goes(stale, e, env, value) && e == (if value then LOr(l, r) else LAnd(l, r))
    ensures Goes(stale, l, env, value) || Goes(stale, r, env, value)
  {
    var v :| Evals(e, env, v) && (v != 0) == value;
    assert Evals(e, env, v);
  }

  /**
   Refinement never drops a disjunct that covers a state taking the edge, and everything it
   records about that disjunct is true of the state.
   */
  lemma {:induction false} RefineDisjunctSound<K(!new), V(!new), X(!new)>(
    rd: Reading<K, V, X>, h: Hooks<K, V>, d: Guarded<K, V>, cond: Expr, isTrue: bool, x: X)
    requires HooksSound(rd, h) && Means(rd, d, x) && WellTyped(rd.env(x)) && Goes(rd.stale, cond, rd.env(x), isTrue)
    ensures var r := RefineDisjunct(h, d, cond, isTrue); r.Some? && Means(rd, r.value, x) && r.value.vars.Keys == d.vars.Keys
    decreases Size(cond)
  {
    hide HooksSound, Means, Goes, Core, ApplyLeaf, RefineBoth, RefineEither, WellTyped;
    var env := rd.env(x);
    CoreGoes(rd.stale, cond, env, isTrue);
    var core := Core(cond);
    match core
    case Expect(s) => TransparentGoes(rd.stale, core, s, env, isTrue); RefineDisjunctSound(rd, h, d, s, isTrue, x);
    case Not(s) => NotGoes(rd.stale, s, env, isTrue); RefineDisjunctSound(rd, h, d, s, !isTrue, x);
    case Comma(_, r) => TransparentGoes(rd.stale, core, r, env, isTrue); RefineDisjunctSound(rd, h, d, r, isTrue, x);
    case LAnd(l, r) => OperandsSound(rd, h, d, core, l, r, isTrue, x);
    case LOr(l, r) => OperandsSound(rd, h, d, core, l, r, isTrue, x);
    case _ => ApplyLeafSound(rd, h, d, core, isTrue, x);
  }

  /** Which operands a junction that went the given way tells about. */
  lemma {:induction false} OperandsSound<K(!new), V(!new), X(!new)>(
    rd: Reading<K, V, X>, h: Hooks<K, V>, d: Guarded<K, V>, e: Expr, l: Expr, r: Expr, isTrue: bool, x: X)
    requires HooksSound(rd, h) && Means(rd, d, x) && WellTyped(rd.env(x)) && Goes(rd.stale, e, rd.env(x), isTrue)
    requires e == LAnd(l, r) || e == LOr(l, r)
    ensures var t := if e.LAnd? == isTrue then RefineBoth(h, d, l, r, isTrue) else RefineEither(h, d, l, r, isTrue);
            t.Some? && Means(rd, t.value, x) && t.value.vars.Keys == d.vars.Keys
    decreases Size(l) + Size(r), 1
  {
    hide HooksSound, Means, Goes, RefineBoth, RefineEither, WellTyped;
    if e.LAnd? == isTrue {
      BothGo(rd.stale, e, l, r, rd.env(x), isTrue);
      RefineBothSound(rd, h, d, l, r, isTrue, x);
    } else {
      OneGoes(rd.stale, e, l, r, rd.env(x), isTrue);
      RefineEitherSound(rd, h, d, l, r, isTrue, x);
    }
  }

  lemma {:induction false} RefineBothSound<K(!new), V(!new), X(!new)>(
    rd: Reading<K, V, X>, h: Hooks<K, V>, d: Guarded<K, V>, l: Expr, r: Expr, value: bool, x: X)
    requires HooksSound(rd, h) && Means(rd, d, x) && WellTyped(rd.env(x))
    requires Goes(rd.stale, l, rd.env(x), value) && Goes(rd.stale, r, rd.env(x), value)
    ensures var t := RefineBoth(h, d, l, r, value); t.Some? && Means(rd, t.value, x) && t.value.vars.Keys == d.vars.Keys
    decreases Size(l) + Size(r), 0
  {
    hide HooksSound, Means, Goes, RefineDisjunct, WellTyped;
    RefineDisjunctSound(rd, h, d, l, value, x);
    RefineDisjunctSound(rd, h, RefineDisjunct(h, d, l, value).value, r, value, x);
  }

  lemma {:induction false} RefineEitherSound<K(!new), V(!new), X(!new)>(
    rd: Reading<K, V, X>, h: Hooks<K, V>, d: Guarded<K, V>, l: Expr, r: Expr, value: bool, x: X)
    requires HooksSound(rd, h) && Means(rd, d, x) && WellTyped(rd.env(x))
    requires Goes(rd.stale, l, rd.env(x), value) || Goes(rd.stale, r, rd.env(x), value)
    ensures var t := RefineEither(h, d, l, r, value); t.Some? && Means(rd, t.value, x) && t.value.vars.Keys == d.vars.Keys
    decreases Size(l) + Size(r), 0
  {
    hide HooksSound, Means, Goes, RefineDisjunct, WellTyped, Refutes;
    if Goes(rd.stale, l, rd.env(x), value) {
      RefutesSound(rd, h, d, l, value, x);
      if Refutes(h, d, r, value) {
        RefineDisjunctSound(rd, h, d, l, value, x);
      }
    } else {
      RefutesSound(rd, h, d, r, value, x);
      if Refutes(h, d, l, value) {
        RefineDisjunctSound(rd, h, d, r, value, x);
      }
    }
  }
}
