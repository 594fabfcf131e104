/**
 The fragment of C that the numeric and path-fact domains read: integer expressions,
 conditions and statements, with their concrete meaning over stores of integer variables.
 */
module Ast {
  import opened Int64

  datatype IntType = IntType(signed: bool, width: nat)

  /** An integer variable. */
  datatype Decl = Decl(id: nat, ty: IntType, isVolatile: bool)

  datatype CmpOp = LT | LE | GT | GE | EQ | NE

  datatype ArithOp = Add | Sub | Mul | And | Rem

  datatype CastKind = LValueToRValue | NoOp | Integral(to: IntType) | OtherCast

  datatype Expr =
    | IntLit(value: nat, ty: IntType)
    | VarRef(decl: Decl)
    | Paren(sub: Expr)
    | ImpCast(kind: CastKind, sub: Expr)
    | BoolCast(sub: Expr)                       // static_cast<bool>(e)
    | SameTypeCast(sub: Expr)                   // an explicit cast to the operand's own type
    | Minus(sub: Expr, ty: IntType)
    | Plus(sub: Expr)
    | Not(sub: Expr)
    | Arith(op: ArithOp, lhs: Expr, rhs: Expr, ty: IntType)
    | Compare(cmp: CmpOp, lhs: Expr, rhs: Expr)
    | LAnd(lhs: Expr, rhs: Expr)
    | LOr(lhs: Expr, rhs: Expr)
    | Comma(lhs: Expr, rhs: Expr)
    | AssignExpr(lhs: Expr, rhs: Expr)          // its effect is an earlier CFG element
    | Expect(sub: Expr)                         // __builtin_expect(e, c)
    | IdentityCall(sub: Expr)                   // f(e) where f's body is `return <its only parameter>;`
    | UntrustedCall(ty: IntType)                // atoi, strtol, ...
    | Unknown                                   // any other expression

  /** A store holds the variables that have been given a value. */
  type Store = map<Decl, int>

  function Pow2(n: nat): nat {
    if n == 0 then 1 else 2 * Pow2(n - 1)
  }

  lemma {:induction false} Pow2Positive(n: nat)
    ensures Pow2(n) >= 1
    ensures n > 0 ==> Pow2(n) == 2 * Pow2(n - 1)
  {
    if n > 0 {
      Pow2Positive(n - 1);
    }
  }

  lemma {:induction false} Pow2Monotone(m: nat, n: nat)
    requires m <= n
    ensures Pow2(m) <= Pow2(n)
    decreases n - m
  {
    if m < n {
      Pow2Positive(m + 1);
      Pow2Monotone(m + 1, n);
    }
  }

  lemma {:induction false} Pow2Sum(m: nat, n: nat)
    ensures Pow2(m + n) == Pow2(m) * Pow2(n)
  {
    if m > 0 {
      Pow2Sum(m - 1, n);
    }
  }

  lemma Pow2Of63()
    ensures Pow2(63) == 0x8000_0000_0000_0000
  {
    assert Pow2(3) == 8;
    Pow2Sum(3, 4);
    Pow2Sum(7, 14);
    Pow2Sum(7, 7);
    Pow2Sum(21, 42);
    Pow2Sum(21, 21);
  }

  function MinOf(ty: IntType): int {
    if ty.signed && ty.width > 0 then -(Pow2(ty.width - 1) as int) else 0
  }

  function MaxOf(ty: IntType): int {
    if ty.width == 0 then -1
    else if ty.signed then Pow2(ty.width - 1) - 1
    else Pow2(ty.width) - 1
  }

  predicate InType(ty: IntType, v: int) {
    MinOf(ty) <= v <= MaxOf(ty)
  }

  /** Conversion to an integer type: reduction modulo 2^width into its range. */
  function Wrap(ty: IntType, v: int): int {
    Pow2Positive(ty.width);
    if ty.width == 0 then 0
    else MinOf(ty) + (v - MinOf(ty)) % Pow2(ty.width)
  }

  /** Section 6.3.1.3 of ISO C: the result is in the type, and a value already there is unchanged. */
  lemma WrapRange(ty: IntType, v: int)
    requires ty.width > 0
    ensures InType(ty, Wrap(ty, v))
    ensures InType(ty, v) ==> Wrap(ty, v) == v
  {
    Pow2Positive(ty.width);
    ModRange(v - MinOf(ty), Pow2(ty.width));
  }

  lemma ModRange(x: int, m: nat)
    requires m > 0
    ensures 0 <= x % m < m
    ensures 0 <= x < m ==> x % m == x
  {
  }

  /** The integer a literal's bits denote when read as two's complement, which is how the engine reads it. */
  function SignExtended(value: nat, width: nat): int {
    if width > 0 && value >= Pow2(width - 1) then value - Pow2(width) else value
  }

  predicate Relates(op: CmpOp, a: int, b: int) {
    match op
    case LT => a < b
    case LE => a <= b
    case GT => a > b
    case GE => a >= b
    case EQ => a == b
    case NE => a != b
  }

  function Truth(b: bool): int {
    if b then 1 else 0
  }

  /** Bitwise conjunction of unbounded two's-complement integers. */
  function BitAnd(x: int, y: int): int
    decreases Abs(x) + Abs(y)
  {
    if x == 0 || y == 0 then 0
    else if x == -1 then y
    else if y == -1 then x
    else 2 * BitAnd(x / 2, y / 2) + (x % 2) * (y % 2)
  }

  function Bit(x: int, k: nat): int
    decreases k
  {
    if k == 0 then x % 2 else Bit(x / 2, k - 1)
  }

  lemma {:induction false} BitsOfConstants(k: nat)
    ensures Bit(0, k) == 0 && Bit(-1, k) == 1
  {
    if k > 0 {
      BitsOfConstants(k - 1);
    }
  }

  lemma {:induction false} BitRange(x: int, k: nat)
    ensures Bit(x, k) == 0 || Bit(x, k) == 1
    decreases k
  {
    if k > 0 {
      BitRange(x / 2, k - 1);
    }
  }

  /** BitAnd is the operation that acts on every bit separately. */
  lemma {:induction false} BitAndActsOnBits(x: int, y: int, k: nat)
    ensures Bit(BitAnd(x, y), k) == Bit(x, k) * Bit(y, k)
    decreases Abs(x) + Abs(y), k
  {
    BitsOfConstants(k);
    BitRange(x, k);
    BitRange(y, k);
    if x != 0 && y != 0 && x != -1 && y != -1 {
      var half, low := BitAnd(x / 2, y / 2), (x % 2) * (y % 2);
      assert low == 0 || low == 1;
      assert BitAnd(x, y) == 2 * half + low;
      if k > 0 {
        assert (2 * half + low) / 2 == half;
        BitAndActsOnBits(x / 2, y / 2, k - 1);
      }
    }
  }

  /** Masking with a non-negative integer gives a value between zero and the mask. */
  lemma {:induction false} BitAndBelowMask(x: int, m: int)
    requires m >= 0
    ensures 0 <= BitAnd(x, m) <= m
    ensures x >= 0 ==> BitAnd(x, m) <= x
    decreases Abs(x) + Abs(m)
  {
    if x != 0 && m != 0 && x != -1 {
      BitAndBelowMask(x / 2, m / 2);
      assert m == 2 * (m / 2) + m % 2 && x == 2 * (x / 2) + x % 2;
      assert (x % 2) * (m % 2) == 0 || ((x % 2) * (m % 2) == 1 && x % 2 == 1 && m % 2 == 1);
    }
  }

  lemma {:induction false} BitAndSymmetric(x: int, y: int)
    ensures BitAnd(x, y) == BitAnd(y, x)
    decreases Abs(x) + Abs(y)
  {
    if x != 0 && y != 0 && x != -1 && y != -1 {
      BitAndSymmetric(x / 2, y / 2);
    }
  }

  /** The mathematical result of an operator; None where the operation is undefined. */
  function ArithResult(op: ArithOp, x: int, y: int): Option<int> {
    match op
    case Add => Some(x + y)
    case Sub => Some(x - y)
    case Mul => Some(x * y)
    case And => Some(BitAnd(x, y))
    case Rem => if y == 0 then None else Some(Remainder(x, y))
  }

  /**
   Which values an expression can take in a store. An operation whose result leaves its
   type takes none, and an expression outside the fragment may take any.
   */
  ghost predicate Evals(e: Expr, env: Store, v: int) {
    match e
    case IntLit(n, ty) => v == n
    case VarRef(d) => d in env && v == env[d]
    case Paren(s) => Evals(s, env, v)
    case ImpCast(k, s) =>
      (match k
       case LValueToRValue => Evals(s, env, v)
       case NoOp => Evals(s, env, v)
       case Integral(to) => exists w :: Evals(s, env, w) && v == Wrap(to, w)
       case OtherCast => true)
    case BoolCast(s) => exists w :: Evals(s, env, w) && v == Truth(w != 0)
    case SameTypeCast(s) => Evals(s, env, v)
    case Minus(s, ty) => Evals(s, env, -v) && InType(ty, v)
    case Plus(s) => Evals(s, env, v)
    case Not(s) => exists w :: Evals(s, env, w) && v == Truth(w == 0)
    case Arith(op, l, r, ty) =>
      InType(ty, v) && exists x, y :: Evals(l, env, x) && Evals(r, env, y) && ArithResult(op, x, y) == Some(v)
    case Compare(op, l, r) =>
      exists x, y :: Evals(l, env, x) && Evals(r, env, y) && v == Truth(Relates(op, x, y))
    case LAnd(l, r) =>
      || (v == 0 && Evals(l, env, 0))
      || exists x, y :: Evals(l, env, x) && x != 0 && Evals(r, env, y) && v == Truth(y != 0)
    case LOr(l, r) =>
      || (v == 1 && exists x :: Evals(l, env, x) && x != 0)
      || (Evals(l, env, 0) && exists y :: Evals(r, env, y) && v == Truth(y != 0))
    case Comma(l, r) => Evals(r, env, v)
    case AssignExpr(l, r) => Evals(l, env, v)
    case Expect(s) => Evals(s, env, v)
    case IdentityCall(s) => Evals(s, env, v)
    case UntrustedCall(ty) => InType(ty, v)
    case Unknown => true
  }

  /** A branch on e can go the given way in this store. */
  ghost predicate Branches(e: Expr, env: Store, taken: bool) {
    exists v :: Evals(e, env, v) && (v != 0) == taken
  }

  function IgnoreParens(e: Expr): Expr {
    match e
    case Paren(s) => IgnoreParens(s)
    case _ => e
  }

  function IgnoreParenImpCasts(e: Expr): Expr {
    match e
    case Paren(s) => IgnoreParenImpCasts(s)
    case ImpCast(_, s) => IgnoreParenImpCasts(s)
    case _ => e
  }

  /** The comparison with its sides exchanged. */
  function Mirror(op: CmpOp): CmpOp {
    match op
    case LT => GT
    case GT => LT
    case LE => GE
    case GE => LE
    case _ => op
  }

  lemma MirrorExchanges(op: CmpOp, a: int, b: int)
    ensures Relates(Mirror(op), b, a) == Relates(op, a, b)
  {
  }

  function NegateCmp(op: CmpOp): CmpOp {
    match op
    case LT => GE
    case LE => GT
    case GT => LE
    case GE => LT
    case EQ => NE
    case NE => EQ
  }

  lemma NegateCmpComplements(op: CmpOp, a: int, b: int)
    ensures Relates(NegateCmp(op), a, b) == !Relates(op, a, b)
  {
  }

  /**
   The condition readers look through implicit casts and read literals as signed. An
   expression is read faithfully in a store when those casts keep the operand's value and
   no literal has its top bit set.
   */
  ghost predicate Faithful(e: Expr, env: Store) {
    match e
    case IntLit(n, ty) => ty.width > 0 && n < Pow2(ty.width - 1)
    case VarRef(_) => true
    case Paren(s) => Faithful(s, env)
    case ImpCast(k, s) =>
      && Faithful(s, env)
      && (match k
          case Integral(to) => forall w :: Evals(s, env, w) ==> InType(to, w)
          case OtherCast => false
          case _ => true)
    case BoolCast(s) => Faithful(s, env)
    case SameTypeCast(s) => Faithful(s, env)
    case Minus(s, _) => Faithful(s, env)
    case Plus(s) => Faithful(s, env)
    case Not(s) => Faithful(s, env)
    case Arith(_, l, r, _) => Faithful(l, env) && Faithful(r, env)
    case Compare(_, l, r) => Faithful(l, env) && Faithful(r, env)
    case LAnd(l, r) => Faithful(l, env) && Faithful(r, env)
    case LOr(l, r) => Faithful(l, env) && Faithful(r, env)
    case Comma(l, r) => Faithful(l, env) && Faithful(r, env)
    case AssignExpr(l, r) => Faithful(l, env) && Faithful(r, env)
    case Expect(s) => Faithful(s, env)
    case IdentityCall(s) => Faithful(s, env)
    case UntrustedCall(_) => true
    case Unknown => true
  }

  lemma {:induction false} StrippingKeepsFaithful(e: Expr, env: Store)
    requires Faithful(e, env)
    ensures Faithful(IgnoreParenImpCasts(e), env)
  {
    match e
    case Paren(s) => StrippingKeepsFaithful(s, env);
    case ImpCast(_, s) => StrippingKeepsFaithful(s, env);
    case _ =>
  }

  lemma {:induction false} StrippingKeepsValue(e: Expr, env: Store, v: int)
    requires Faithful(e, env) && Evals(e, env, v)
    ensures Evals(IgnoreParenImpCasts(e), env, v)
  {
    match e
    case Paren(s) => StrippingKeepsValue(s, env, v);
    case ImpCast(k, s) =>
      if k.Integral? {
        var w :| Evals(s, env, w) && v == Wrap(k.to, w);
        assert k.to.width > 0;
        WrapRange(k.to, w);
      }
      StrippingKeepsValue(s, env, v);
    case _ =>
  }

  // --- Statements ---

  datatype Init = Init(decl: Decl, init: Option<Expr>)

  datatype Stmt =
    | DeclStmt(decls: seq<Init>)
    | Assign(target: Decl, value: Expr)
    | CompoundAssign(target: Decl)
    | IncDec(target: Decl)
    | Call(callee: nat, args: seq<Expr>, refArgs: set<Decl>, untrusted: bool)
    | OtherStmt

  /** The values a variable holds: those of its type that are also 64-bit signed values. */
  predicate Holdable(x: Decl, v: int) {
    InType(x.ty, v) && Fits(v)
  }

  predicate WellTyped(env: Store) {
    forall d :: d in env ==> Holdable(d, env[d])
  }

  /** x has been given some value and nothing else has changed. */
  predicate Rewrites(env: Store, x: Decl, env': Store) {
    x in env' && Holdable(x, env'[x]) && env' == env[x := env'[x]]
  }

  ghost predicate InitStep(i: Init, env: Store, env': Store) {
    match i.init
    case None => env' == env || Rewrites(env, i.decl, env')
    case Some(e) => Rewrites(env, i.decl, env') && Evals(e, env, env'[i.decl])
  }

  ghost predicate InitSteps(decls: seq<Init>, env: Store, env': Store) {
    if decls == [] then env' == env
    else exists mid: Store :: InitStep(decls[0], env, mid) && InitSteps(decls[1..], mid, env')
  }

  /** The concrete effect of a statement on the variables of the running function. */
  ghost predicate Step(s: Stmt, env: Store, env': Store) {
    match s
    case DeclStmt(decls) => InitSteps(decls, env, env')
    case Assign(x, e) => Rewrites(env, x, env') && Evals(e, env, env'[x])
    case CompoundAssign(x) => Rewrites(env, x, env')
    case IncDec(x) => Rewrites(env, x, env')
    case Call(_, _, refs, _) =>
      && (forall d :: d in env ==> d in env' && (d !in refs ==> env'[d] == env[d]))
      && (forall d :: d in env' && d !in refs ==> d in env)
      && (forall d :: d in env' && d in refs ==> Holdable(d, env'[d]))
    case OtherStmt => env' == env
  }

  lemma {:induction false} InitStepsKeepTypes(decls: seq<Init>, env: Store, env': Store)
    requires WellTyped(env) && InitSteps(decls, env, env')
    ensures WellTyped(env')
  {
    if decls != [] {
      var mid: Store :| InitStep(decls[0], env, mid) && InitSteps(decls[1..], mid, env');
      InitStepsKeepTypes(decls[1..], mid, env');
    }
  }

  lemma StepKeepsTypes(s: Stmt, env: Store, env': Store)
    requires WellTyped(env) && Step(s, env, env')
    ensures WellTyped(env')
  {
    if s.DeclStmt? {
      InitStepsKeepTypes(s.decls, env, env');
    }
  }
}
