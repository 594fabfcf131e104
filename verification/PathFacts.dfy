/** Condition facts: the canonical keys of src/engine/PathFacts.cpp and what they say about a store. */
module PathFacts {
  import opened Int64
  import opened Ast
  import opened IntervalEval

  /** Keys are reduced to three relations; the others are these with the value flipped. */
  datatype KeyRel = KeyLT | KeyLE | KeyEQ

  datatype FactKey = FactKey(decl: Decl, rel: KeyRel, literal: int64)

  type Facts = map<FactKey, bool>
  type Fact = (FactKey, bool)

  function Compared(rel: KeyRel, a: int, b: int): bool {
    match rel
    case KeyLT => a < b
    case KeyLE => a <= b
    case KeyEQ => a == b
  }

  predicate KeyTrue(k: FactKey, env: Store)
    requires k.decl in env
  {
    Compared(k.rel, env[k.decl], k.literal as int)
  }

  predicate FactHolds(k: FactKey, value: bool, env: Store) {
    k.decl in env ==> KeyTrue(k, env) == value
  }

  /** Every recorded fact about a keyable variable is true in the store. */
  predicate FactsHold(facts: Facts, unkeyable: set<Decl>, env: Store) {
    forall k :: k in facts && k.decl !in unkeyable ==> FactHolds(k, facts[k], env)
  }

  // --- From a condition to a fact ---

  function StableDeclRef(e: Expr, unkeyable: set<Decl>): Option<Decl> {
    var core := IgnoreParenImpCasts(e);
    if core.VarRef? && !core.decl.isVolatile && core.decl !in unkeyable then Some(core.decl) else None
  }

  /** Unsigned comparisons with zero: `u <= 0` is `u == 0`, `u > 0` is `u != 0`, the others say nothing. */
  function ZeroIdentity(d: Decl, op: CmpOp, lit: int64): Option<CmpOp> {
    if d.ty.signed || lit != 0 then Some(op)
    else match op
      case LE => Some(EQ)
      case GT => Some(NE)
      case LT => None
      case GE => None
      case _ => Some(op)
  }

  function KeyOf(d: Decl, op: CmpOp, lit: int64): Fact {
    match op
    case EQ => (FactKey(d, KeyEQ, lit), true)
    case NE => (FactKey(d, KeyEQ, lit), false)
    case LT => (FactKey(d, KeyLT, lit), true)
    case GE => (FactKey(d, KeyLT, lit), false)
    case LE => (FactKey(d, KeyLE, lit), true)
    case GT => (FactKey(d, KeyLE, lit), false)
  }

  function NormalizeCompare(d: Decl, op: CmpOp, lit: int64, varOnLeft: bool): Option<Fact> {
    match ZeroIdentity(d, if varOnLeft then op else Mirror(op), lit)
    case None => None
    case Some(canonical) => Some(KeyOf(d, canonical, lit))
  }

  function Flip(f: Option<Fact>): Option<Fact> {
    match f
    case None => None
    case Some((k, value)) => Some((k, !value))
  }

  /** The key a condition asks about, with the key's value when the condition is true. */
  function ConditionFact(cond: Expr, unkeyable: set<Decl>): Option<Fact> {
    match cond
    case Paren(s) => ConditionFact(s, unkeyable)
    case ImpCast(_, s) => ConditionFact(s, unkeyable)
    case Not(s) => Flip(ConditionFact(s, unkeyable))
    case Compare(op, l, r) => ComparisonFact(op, l, r, unkeyable)
    case _ =>
      var d := StableDeclRef(cond, unkeyable);
      if d.Some? then Some((FactKey(d.value, KeyEQ, 0), false)) else None
  }

  function ComparisonFact(op: CmpOp, l: Expr, r: Expr, unkeyable: set<Decl>): Option<Fact> {
    var left, right := StableDeclRef(l, unkeyable), StableDeclRef(r, unkeyable);
    if left.Some? then
      match ConstInt(r) case None => None case Some(lit) => NormalizeCompare(left.value, op, lit, true)
    else if right.Some? then
      match ConstInt(l) case None => None case Some(lit) => NormalizeCompare(right.value, op, lit, false)
    else None
  }

  /**
   Canonicalisation neither gains nor loses: a key is true exactly when the comparison is,
   and only comparisons with one outcome for every value of the type have no key.
   */
  lemma NormalizeCompareExact(d: Decl, op: CmpOp, lit: int64, varOnLeft: bool, v: int, w: int)
    requires InType(d.ty, v) && InType(d.ty, w)
    ensures var fact := NormalizeCompare(d, op, lit, varOnLeft);
            var outcome := (x: int) => if varOnLeft then Relates(op, x, lit as int) else Relates(op, lit as int, x);
            if fact.Some? then
              fact.value.0.decl == d && (Compared(fact.value.0.rel, v, fact.value.0.literal as int) == fact.value.1) == outcome(v)
            else outcome(v) == outcome(w)
  {
    MirrorExchanges(op, lit as int, v);
    MirrorExchanges(op, lit as int, w);
  }

  lemma StableDeclValue(e: Expr, unkeyable: set<Decl>, env: Store, v: int)
    requires Faithful(e, env) && Evals(e, env, v) && StableDeclRef(e, unkeyable).Some?
    ensures var d := StableDeclRef(e, unkeyable).value;
            d in env && env[d] == v && d !in unkeyable
  {
    StrippingKeepsValue(e, env, v);
  }

  lemma ComparisonFactExact(op: CmpOp, l: Expr, r: Expr, unkeyable: set<Decl>, env: Store, x: int, y: int)
    requires WellTyped(env) && Faithful(l, env) && Faithful(r, env) && Evals(l, env, x) && Evals(r, env, y)
    requires ComparisonFact(op, l, r, unkeyable).Some?
    ensures var (k, value) := ComparisonFact(op, l, r, unkeyable).value;
            k.decl in env && k.decl !in unkeyable && (KeyTrue(k, env) == value) == Relates(op, x, y)
  {
    if StableDeclRef(l, unkeyable).Some? {
      var d, lit := StableDeclRef(l, unkeyable).value, ConstInt(r).value;
      StableDeclValue(l, unkeyable, env, x);
      ConstIntSound(r, env, y);
      NormalizeCompareExact(d, op, lit, true, x, x);
    } else {
      var d, lit := StableDeclRef(r, unkeyable).value, ConstInt(l).value;
      StableDeclValue(r, unkeyable, env, y);
      ConstIntSound(l, env, x);
      NormalizeCompareExact(d, op, lit, false, y, y);
    }
  }

  /** The recorded key has the recorded value exactly when the condition is true. */
  lemma {:induction false} ConditionFactExact(cond: Expr, unkeyable: set<Decl>, env: Store, v: int)
    requires WellTyped(env) && Faithful(cond, env) && Evals(cond, env, v)
    requires ConditionFact(cond, unkeyable).Some?
    ensures var (k, value) := ConditionFact(cond, unkeyable).value;
            k.decl in env && k.decl !in unkeyable && (KeyTrue(k, env) == value) == (v != 0)
  {
    match cond
    case Paren(s) => ConditionFactExact(s, unkeyable, env, v);
    case ImpCast(k, s) =>
      if k.Integral? {
        var w :| Evals(s, env, w) && v == Wrap(k.to, w);
        assert k.to.width > 0;
        WrapRange(k.to, w);
      }
      ConditionFactExact(s, unkeyable, env, v);
    case Not(s) =>
      var w :| Evals(s, env, w) && v == Truth(w == 0);
      ConditionFactExact(s, unkeyable, env, w);
    case Compare(op, l, r) =>
      var x, y :| Evals(l, env, x) && Evals(r, env, y) && v == Truth(Relates(op, x, y));
      ComparisonFactExact(op, l, r, unkeyable, env, x, y);
    case _ => StableDeclValue(cond, unkeyable, env, v);
  }

  // --- The fact of a strict unsigned bound ---

  function TypeOf(e: Expr): Option<IntType> {
    match e
    case IntLit(_, ty) => Some(ty)
    case VarRef(d) => Some(d.ty)
    case Paren(s) => TypeOf(s)
    case ImpCast(LValueToRValue, s) => TypeOf(s)
    case ImpCast(NoOp, s) => TypeOf(s)
    case ImpCast(Integral(to), _) => Some(to)
    case BoolCast(_) => Some(IntType(false, 1))
    case SameTypeCast(s) => TypeOf(s)
    case Minus(_, ty) => Some(ty)
    case Plus(s) => TypeOf(s)
    case Not(_) => Some(IntType(true, 32))
    case Arith(_, _, _, ty) => Some(ty)
    case Compare(_, _, _) => Some(IntType(true, 32))
    case LAnd(_, _) => Some(IntType(true, 32))
    case LOr(_, _) => Some(IntType(true, 32))
    case Comma(_, r) => TypeOf(r)
    case AssignExpr(l, _) => TypeOf(l)
    case Expect(_) => Some(IntType(true, 64))
    case IdentityCall(s) => TypeOf(s)
    case UntrustedCall(ty) => Some(ty)
    case _ => None
  }

  predicate HasUnsignedType(e: Expr) {
    TypeOf(e).Some? && !TypeOf(e).value.signed
  }

  /** `X < n` or `n > X` with both sides unsigned: the key `n == 0`, false wherever the condition is true. */
  function UnsignedStrictUpperBoundNonzero(cond: Expr, unkeyable: set<Decl>): Option<FactKey> {
    var core := IgnoreParenImpCasts(cond);
    if !core.Compare? || (core.cmp != LT && core.cmp != GT) then None
    else
      var lesser := if core.cmp == LT then core.lhs else core.rhs;
      var greater := if core.cmp == LT then core.rhs else core.lhs;
      if !HasUnsignedType(greater) || !HasUnsignedType(IgnoreParenImpCasts(lesser)) then None
      else match StableDeclRef(greater, unkeyable)
        case None => None
        case Some(n) => Some(FactKey(n, KeyEQ, 0))
  }

  lemma {:induction false} UnsignedValue(e: Expr, env: Store, v: int)
    requires WellTyped(env) && Faithful(e, env) && Evals(e, env, v) && HasUnsignedType(e)
    ensures v >= 0
  {
    match e
    case Paren(s) => UnsignedValue(s, env, v);
    case ImpCast(k, s) =>
      if k.Integral? {
        var w :| Evals(s, env, w) && v == Wrap(k.to, w);
        assert k.to.width > 0;
        WrapRange(k.to, w);
      } else {
        UnsignedValue(s, env, v);
      }
    case SameTypeCast(s) => UnsignedValue(s, env, v);
    case Plus(s) => UnsignedValue(s, env, v);
    case Comma(_, r) => UnsignedValue(r, env, v);
    case AssignExpr(l, _) => UnsignedValue(l, env, v);
    case IdentityCall(s) => UnsignedValue(s, env, v);
    case _ =>
  }

  /** On the true edge the bound is not zero. */
  lemma StrictBoundSound(cond: Expr, unkeyable: set<Decl>, env: Store)
    requires WellTyped(env) && Faithful(cond, env) && Branches(cond, env, true)
    requires UnsignedStrictUpperBoundNonzero(cond, unkeyable).Some?
    ensures var k := UnsignedStrictUpperBoundNonzero(cond, unkeyable).value;
            k.decl in env && k.decl !in unkeyable && !KeyTrue(k, env)
  {
    var v :| Evals(cond, env, v) && (v != 0) == true;
    StrippingKeepsValue(cond, env, v);
    StrippingKeepsFaithful(cond, env);
    var core := IgnoreParenImpCasts(cond);
    var x, y :| Evals(core.lhs, env, x) && Evals(core.rhs, env, y) && v == Truth(Relates(core.cmp, x, y));
    if core.cmp == LT {
      BoundAboveUnsigned(core.lhs, core.rhs, unkeyable, env, x, y);
    } else {
      BoundAboveUnsigned(core.rhs, core.lhs, unkeyable, env, y, x);
    }
  }

  lemma BoundAboveUnsigned(lesser: Expr, greater: Expr, unkeyable: set<Decl>, env: Store, x: int, y: int)
    requires WellTyped(env) && Faithful(lesser, env) && Faithful(greater, env)
    requires Evals(lesser, env, x) && Evals(greater, env, y) && x < y
    requires HasUnsignedType(IgnoreParenImpCasts(lesser)) && StableDeclRef(greater, unkeyable).Some?
    ensures var n := StableDeclRef(greater, unkeyable).value; n in env && n !in unkeyable && env[n] > 0
  {
    StrippingKeepsValue(lesser, env, x);
    StrippingKeepsFaithful(lesser, env);
    UnsignedValue(IgnoreParenImpCasts(lesser), env, x);
    StableDeclValue(greater, unkeyable, env, y);
  }

  /** The false edge decides nothing about the bound: both answers occur for `i < n`. */
  lemma FalseEdgeLeavesBoundOpen(i: Decl, n: Decl, zero: bool)
    requires i != n && !i.ty.signed && !n.ty.signed && i.ty.width > 0 && n.ty.width > 0
    ensures exists env: Store ::
              WellTyped(env) && Branches(Compare(LT, VarRef(i), VarRef(n)), env, false) && n in env && (env[n] == 0) == zero
  {
    var m := if zero then 0 else 1;
    var env: Store := map[i := 1, n := m];
    Pow2Positive(i.ty.width);
    Pow2Positive(n.ty.width);
    Pow2Positive(i.ty.width - 1);
    Pow2Positive(n.ty.width - 1);
    var cond := Compare(LT, VarRef(i), VarRef(n));
    assert Evals(VarRef(i), env, 1) && Evals(VarRef(n), env, m);
    assert Evals(cond, env, 0);
  }

  // --- Contradiction ---

  /** A recorded true equality settles every relation on its variable. */
  predicate SettlesOtherwise(known: FactKey, value: bool, key: FactKey, wanted: bool) {
    && known.decl == key.decl && known.rel == KeyEQ && value
    && Compared(key.rel, known.literal as int, key.literal as int) != wanted
  }

  predicate FactsContradict(facts: Facts, key: FactKey, wanted: bool) {
    if key in facts then facts[key] != wanted
    else exists known :: known in facts && SettlesOtherwise(known, facts[known], key, wanted)
  }

  /** Facts that speak about the key decide it; others leave it open. */
  predicate SpeaksAbout(facts: Facts, key: FactKey) {
    key in facts || exists known :: known in facts && known.decl == key.decl && known.rel == KeyEQ && facts[known]
  }

  /** A contradiction is a real one, and facts that speak about the key answer exactly its value. */
  lemma FactsContradictExact(facts: Facts, unkeyable: set<Decl>, key: FactKey, wanted: bool, env: Store)
    requires FactsHold(facts, unkeyable, env) && key.decl in env && key.decl !in unkeyable
    ensures FactsContradict(facts, key, wanted) ==> KeyTrue(key, env) != wanted
    ensures SpeaksAbout(facts, key) ==> (FactsContradict(facts, key, wanted) <==> KeyTrue(key, env) != wanted)
  {
    if key in facts {
      assert FactHolds(key, facts[key], env);
    } else {
      forall known | known in facts && known.decl == key.decl && known.rel == KeyEQ && facts[known]
        ensures KeyTrue(key, env) == Compared(key.rel, known.literal as int, key.literal as int)
      {
        assert FactHolds(known, facts[known], env);
      }
    }
  }

  /** The scan over the recorded facts. */
  method ScanFacts(facts: Facts, key: FactKey, wanted: bool) returns (contradict: bool)
    ensures contradict == FactsContradict(facts, key, wanted)
  {
    if key in facts {
      return facts[key] != wanted;
    }
    var todo := facts.Keys;
    while todo != {}
      invariant todo <= facts.Keys
      invariant forall known :: known in facts && known !in todo ==> !SettlesOtherwise(known, facts[known], key, wanted)
      decreases |todo|
    {
      var known :| known in todo;
      todo := todo - {known};
      if SettlesOtherwise(known, facts[known], key, wanted) {
        return true;
      }
    }
    return false;
  }

  // --- What an assignment does to facts ---

  function AssignedDecl(s: Stmt): Option<Decl> {
    match s
    case Assign(x, _) => Some(x)
    case CompoundAssign(x) => Some(x)
    case IncDec(x) => Some(x)
    case DeclStmt(decls) => if |decls| == 1 && decls[0].init.Some? then Some(decls[0].decl) else None
    case _ => None
  }

  function AssignedIntLiteral(s: Stmt): Option<int64> {
    match s
    case Assign(_, e) => ConstInt(e)
    case DeclStmt(decls) => if |decls| == 1 && decls[0].init.Some? then ConstInt(decls[0].init.value) else None
    case _ => None
  }

  function AssignedValue(s: Stmt): Option<Expr> {
    match s
    case Assign(_, e) => Some(e)
    case DeclStmt(decls) => if |decls| == 1 then decls[0].init else None
    case _ => None
  }

  /** What a literal under casts and minus signs really evaluates to. */
  function LiteralMeaning(e: Expr): Option<int> {
    match e
    case IntLit(n, _) => Some(n)
    case Paren(s) => LiteralMeaning(s)
    case ImpCast(LValueToRValue, s) => LiteralMeaning(s)
    case ImpCast(NoOp, s) => LiteralMeaning(s)
    case ImpCast(Integral(to), s) =>
      (match LiteralMeaning(s) case None => None case Some(w) => Some(Wrap(to, w)))
    case Minus(s, ty) =>
      (match LiteralMeaning(s) case None => None case Some(w) => if InType(ty, -w) then Some(-w) else None)
    case _ => None
  }

  predicate HasOtherCast(e: Expr) {
    match e
    case Paren(s) => HasOtherCast(s)
    case ImpCast(k, s) => k == OtherCast || HasOtherCast(s)
    case Minus(s, _) => HasOtherCast(s)
    case _ => false
  }

  lemma {:induction false} LiteralMeaningExact(e: Expr, env: Store, v: int)
    requires ConstInt(e).Some? && !HasOtherCast(e)
    ensures Evals(e, env, v) <==> LiteralMeaning(e) == Some(v)
  {
    match e
    case Paren(s) => LiteralMeaningExact(s, env, v);
    case ImpCast(k, s) =>
      if k.Integral? {
        forall w
          ensures Evals(s, env, w) <==> LiteralMeaning(s) == Some(w)
        {
          LiteralMeaningExact(s, env, w);
        }
      } else {
        LiteralMeaningExact(s, env, v);
      }
    case Minus(s, _) => LiteralMeaningExact(s, env, -v);
    case _ =>
  }

  /** Assigning a value v that the statement's expression can have. */
  lemma AssignsValue(s: Stmt, x: Decl, env: Store, v: int)
    requires AssignedDecl(s) == Some(x) && AssignedValue(s).Some? && Evals(AssignedValue(s).value, env, v) && Holdable(x, v)
    ensures Step(s, env, env[x := v])
  {
    if s.DeclStmt? {
      var after := env[x := v];
      assert InitStep(s.decls[0], env, after);
      assert InitSteps(s.decls[1..], after, after);
    }
  }

  lemma AssignedEvals(s: Stmt, x: Decl, env: Store, env': Store)
    requires AssignedDecl(s) == Some(x) && AssignedValue(s).Some? && Step(s, env, env')
    ensures x in env' && Evals(AssignedValue(s).value, env, env'[x])
  {
    if s.DeclStmt? {
      var mid: Store :| InitStep(s.decls[0], env, mid) && InitSteps(s.decls[1..], mid, env');
      assert s.decls[1..] == [];
    }
  }

  /**
   The stamp of a literal assignment or initialiser is true after every execution exactly when
   the literal's value survives the conversions to the variable's type; they are ignored when
   the stamp is made.
   */
  lemma StampExact(s: Stmt, x: Decl, env: Store)
    requires AssignedDecl(s) == Some(x) && AssignedIntLiteral(s).Some? && !HasOtherCast(AssignedValue(s).value)
    requires var v := LiteralMeaning(AssignedValue(s).value); v.Some? && Holdable(x, v.value)
    ensures (forall env' {:trigger Step(s, env, env')} ::
               Step(s, env, env') ==> FactHolds(FactKey(x, KeyEQ, AssignedIntLiteral(s).value), true, env'))
            <==> LiteralMeaning(AssignedValue(s).value) == Some(AssignedIntLiteral(s).value as int)
  {
    var e := AssignedValue(s).value;
    var v := LiteralMeaning(e).value;
    LiteralMeaningExact(e, env, v);
    AssignsValue(s, x, env, v);
    forall env' | Step(s, env, env')
      ensures x in env' && env'[x] == v
    {
      AssignedEvals(s, x, env, env');
      LiteralMeaningExact(e, env, env'[x]);
    }
  }

  /** `unsigned char x = 256;` leaves x zero and stamps it 256. */
  lemma TruncatedStampFails(x: Decl, env: Store)
    requires x.ty == IntType(false, 8)
    ensures var e := ImpCast(Integral(x.ty), IntLit(256, IntType(true, 32)));
            && ConstInt(e) == Some(256) && LiteralMeaning(e) == Some(0)
            && Step(Assign(x, e), env, env[x := 0])
            && !FactHolds(FactKey(x, KeyEQ, 256), true, env[x := 0])
  {
    var lit := IntLit(256, IntType(true, 32));
    var e := ImpCast(Integral(x.ty), lit);
    Pow2Sum(4, 4);
    assert Pow2(4) == 16;
    Pow2Monotone(9, 31);
    assert Pow2(8) == 256 && Pow2(9) == 512;
    assert SignExtended(256, 32) == 256;
    assert Wrap(x.ty, 256) == 0;
    assert Evals(lit, env, 256) && Evals(e, env, 0);
  }
}
