/**
 How precise the evaluator of src/engine/IntervalEval.cpp is: for every form of expression,
 the interval it answers is the smallest one there is, or top exactly when stated.
 */
module EvalExact {
  import opened Int64
  import opened Ast
  import opened IntervalEval
  import I = Intervals

  // --- Arithmetic ---

  /**
   On non-empty operands, `+`, `-` and `*` answer the smallest interval of all pairwise
   results, or top exactly when a bound they need is no 64-bit value or a factor is unbounded.
   */
  lemma ArithmeticExact(x: Expr, y: Expr, ty: IntType, iv: IntervalMap, hasCtx: bool)
    requires EvalInterval(x, iv, hasCtx).Between? && EvalInterval(y, iv, hasCtx).Between?
    ensures var l, r := EvalInterval(x, iv, hasCtx), EvalInterval(y, iv, hasCtx);
            var sum := EvalInterval(Arith(Add, x, y, ty), iv, hasCtx);
            if I.SumFits(l, r) then I.Hull(sum, I.Sums(l, r)) else sum == I.Top
    ensures var l, r := EvalInterval(x, iv, hasCtx), EvalInterval(y, iv, hasCtx);
            var difference := EvalInterval(Arith(Sub, x, y, ty), iv, hasCtx);
            if I.DifferenceFits(l, r) then I.Hull(difference, I.Differences(l, r)) else difference == I.Top
    ensures var l, r := EvalInterval(x, iv, hasCtx), EvalInterval(y, iv, hasCtx);
            var product := EvalInterval(Arith(Mul, x, y, ty), iv, hasCtx);
            if I.ProductBounded(l, r) then I.Hull(product, I.Products(l, r)) else product == I.Top
  {
    hide *;
    var l, r := EvalInterval(x, iv, hasCtx), EvalInterval(y, iv, hasCtx);
    ArithmeticIs(x, y, ty, iv, hasCtx);
    I.AddTight(l, r);
    I.SubTight(l, r);
    I.MulTight(l, r);
  }

  lemma ArithmeticIs(x: Expr, y: Expr, ty: IntType, iv: IntervalMap, hasCtx: bool)
    ensures var l, r := EvalInterval(x, iv, hasCtx), EvalInterval(y, iv, hasCtx);
            && EvalInterval(Arith(Add, x, y, ty), iv, hasCtx) == I.Add(l, r)
            && EvalInterval(Arith(Sub, x, y, ty), iv, hasCtx) == I.Sub(l, r)
            && EvalInterval(Arith(Mul, x, y, ty), iv, hasCtx) == I.Mul(l, r)
            && EvalInterval(Arith(And, x, y, ty), iv, hasCtx) == BitAndInterval(l, r)
  {
    hide I.Add, I.Sub, I.Mul, BitAndInterval;
  }

  /** Signs and the casts that keep values answer the smallest interval of the results. */
  lemma SignsExact(x: Expr, ty: IntType, iv: IntervalMap, hasCtx: bool)
    requires EvalInterval(x, iv, hasCtx).Between?
    ensures var v, minus := EvalInterval(x, iv, hasCtx), EvalInterval(Minus(x, ty), iv, hasCtx);
            if I.NegationFits(v) then I.Hull(minus, I.Negations(v)) else minus == I.Top
    ensures forall e :: e == Plus(x) || e == Paren(x) || e == ImpCast(LValueToRValue, x) || e == ImpCast(NoOp, x) ==>
              forall v :: EvalInterval(e, iv, hasCtx).Contains(v) <==> EvalInterval(x, iv, hasCtx).Contains(v)
  {
    I.NegateTight(EvalInterval(x, iv, hasCtx));
    hide I.Negate, I.NegationFits, I.Hull;
  }

  /** A non-negative operand with an upper bound. */
  predicate Masks(i: Interval) {
    i.Between? && i.lo.Finite? && i.lo.v >= 0 && i.hi.Finite?
  }

  /**
   `&` answers top exactly when neither side is known to lie between zero and a bound; otherwise
   nothing negative and nothing above that bound. A constant mask gives exactly [0, mask].
   */
  lemma MaskExact(x: Expr, y: Expr, ty: IntType, iv: IntervalMap, hasCtx: bool)
    ensures MaskedBy(EvalInterval(x, iv, hasCtx), EvalInterval(y, iv, hasCtx), EvalInterval(Arith(And, x, y, ty), iv, hasCtx))
  {
    hide *;
    ArithmeticIs(x, y, ty, iv, hasCtx);
    BitAndMasks(EvalInterval(x, iv, hasCtx), EvalInterval(y, iv, hasCtx));
  }

  /** masked is what is known of l & r. */
  ghost predicate MaskedBy(l: Interval, r: Interval, masked: Interval) {
    && (masked == I.Top <==> !Masks(l) && !Masks(r))
    && (Masks(r) && (r.Singleton().Some? || !Masks(l)) ==> UpTo(masked, r.hi.v as int))
    && (Masks(l) && (!Masks(r) || (l.Singleton().Some? && r.Singleton().None?)) ==> UpTo(masked, l.hi.v as int))
    && (Masks(l) && Masks(r) && l.Singleton().None? && r.Singleton().None? ==>
          UpTo(masked, Min(l.hi.v as int, r.hi.v as int)))
  }

  ghost predicate UpTo(i: Interval, m: int) {
    forall v :: i.Contains(v) <==> 0 <= v <= m
  }

  lemma BitAndMasks(l: Interval, r: Interval)
    ensures MaskedBy(l, r, BitAndInterval(l, r))
  {
  }

  lemma MaskOfMask(m: int)
    requires m >= 0
    ensures BitAnd(m, m) == m && BitAnd(0, m) == 0
    decreases m
  {
    if m > 0 {
      MaskOfMask(m / 2);
      assert m == 2 * (m / 2) + m % 2;
      assert (m % 2) * (m % 2) == m % 2;
    }
  }

  ghost predicate IsMasked(l: Interval, r: Interval, v: int) {
    exists a, b :: l.Contains(a) && r.Contains(b) && v == BitAnd(a, b)
  }

  /** Masking something that can be zero and can be the mask itself cannot be bounded more closely. */
  lemma MaskTight(x: Expr, y: Expr, ty: IntType, iv: IntervalMap, hasCtx: bool, m: int64)
    requires m >= 0 && EvalInterval(y, iv, hasCtx) == I.Constant(m)
    requires EvalInterval(x, iv, hasCtx).Contains(0) && EvalInterval(x, iv, hasCtx).Contains(m as int)
    ensures I.Hull(EvalInterval(Arith(And, x, y, ty), iv, hasCtx), (v: int) => IsMasked(EvalInterval(x, iv, hasCtx), I.Constant(m), v))
  {
    var l, masked := EvalInterval(x, iv, hasCtx), EvalInterval(Arith(And, x, y, ty), iv, hasCtx);
    assert masked == I.Range(0, m);
    MaskOfMask(m as int);
    var s := (v: int) => IsMasked(l, I.Constant(m), v);
    assert s(0) && s(m as int);
    forall v | s(v)
      ensures masked.Contains(v)
    {
      var a, b :| l.Contains(a) && I.Constant(m).Contains(b) && v == BitAnd(a, b);
      BitAndBelowMask(a, b);
    }
    I.HullByWitness(masked, s, n => n, n => n);
  }

  /** The largest remainder of a division by d. */
  function MostLeft(d: int): int {
    Abs(d) - 1
  }

  /** `%` answers top exactly for a divisor that is zero or unknown; otherwise all remainders, of one sign when the dividend has it. */
  lemma RemainderExact(x: Expr, y: Expr, ty: IntType, iv: IntervalMap, hasCtx: bool)
    ensures var l, r, rest := EvalInterval(x, iv, hasCtx), EvalInterval(y, iv, hasCtx), EvalInterval(Arith(Rem, x, y, ty), iv, hasCtx);
            && (r.Singleton().None? || r.Singleton() == Some(0) ==> rest == I.Top)
            && (r.Singleton().Some? && r.Singleton() != Some(0) ==>
                  var most, least := MostLeft(r.Singleton().value as int), if l.Between? && l.lo.Finite? && l.lo.v >= 0 then 0 else -1;
                  forall v :: rest.Contains(v) <==> least * most <= v <= most)
  {
  }

  ghost predicate IsRemainder(l: Interval, d: int, v: int)
    requires d != 0
  {
    exists a :: l.Contains(a) && v == Remainder(a, d)
  }

  /** A dividend reaching as far as the divisor takes the outermost remainders. */
  lemma RemainderTight(x: Expr, y: Expr, ty: IntType, iv: IntervalMap, hasCtx: bool, d: int64)
    requires d != 0 && EvalInterval(y, iv, hasCtx) == I.Constant(d)
    requires var l, most := EvalInterval(x, iv, hasCtx), MostLeft(d as int);
             l.Contains(most) && (l.Contains(-most) || (l.Contains(0) && !l.Contains(-1)))
    ensures I.Hull(EvalInterval(Arith(Rem, x, y, ty), iv, hasCtx), (v: int) => IsRemainder(EvalInterval(x, iv, hasCtx), d as int, v))
  {
    var l, most := EvalInterval(x, iv, hasCtx), MostLeft(d as int);
    var rest := EvalInterval(Arith(Rem, x, y, ty), iv, hasCtx);
    RemainderExact(x, y, ty, iv, hasCtx);
    var s := (v: int) => IsRemainder(l, d as int, v);
    SmallRemainder(most, d as int);
    SmallRemainder(-most, d as int);
    SmallRemainder(0, d as int);
    assert s(most) && (l.Contains(-most) ==> s(-most)) && (l.Contains(0) ==> s(0));
    forall v | s(v)
      ensures rest.Contains(v)
    {
      var a :| l.Contains(a) && v == Remainder(a, d as int);
      RemSound(l, I.Constant(d), a, d as int);
    }
    I.HullByWitness(rest, s, n => n, n => n);
  }

  lemma SmallRemainder(a: int, d: int)
    requires d != 0 && Abs(a) < Abs(d)
    ensures Remainder(a, d) == a
  {
    ModRange(Abs(a), Abs(d));
  }

  // --- Casts, literals and sources ---

  /** The interval is bounded and lies in the type. */
  ghost predicate InsideType(v: Interval, to: IntType) {
    v.Between? && v.lo.Finite? && v.hi.Finite? && forall n :: v.Contains(n) ==> InType(to, n)
  }

  lemma InsideTypeBounds(v: Interval, to: IntType)
    requires v.Between? && v.lo.Finite? && v.hi.Finite?
    ensures InsideType(v, to) <==> InType(to, v.lo.v as int) && InType(to, v.hi.v as int)
  {
    assert v.Contains(v.lo.v as int) && v.Contains(v.hi.v as int);
    hide MinOf, MaxOf;
  }

  lemma CastKeeps(v: Interval, to: IntType)
    requires 0 < to.width <= 64
    ensures CastInterval(v, to) == if InsideType(v, to) then v else I.Top
  {
    if v.Between? && v.lo.Finite? && v.hi.Finite? {
      InsideTypeBounds(v, to);
      WideType(to);
    }
    hide InsideType, Pow2;
  }

  /** Every 64-bit value is below the top of a type of that width. */
  lemma WideType(to: IntType)
    requires 0 < to.width <= 64
    ensures !to.signed && to.width == 64 ==> MaxOf(to) >= INT64_MAX
  {
    Pow2Of63();
    Pow2Monotone(63, to.width - 1 + (64 - to.width));
    Pow2Positive(64);
  }

  /** An integral conversion is transparent exactly for bounded intervals inside the target type; without type widths never. */
  lemma CastExact(x: Expr, to: IntType, iv: IntervalMap, hasCtx: bool)
    requires 0 < to.width <= 64
    ensures var v, r := EvalInterval(x, iv, hasCtx), EvalInterval(ImpCast(Integral(to), x), iv, hasCtx);
            r == if hasCtx && InsideType(v, to) then v else I.Top
  {
    CastKeeps(EvalInterval(x, iv, hasCtx), to);
    hide CastInterval, InsideType;
  }

  /** A literal is its value read as a signed number of its width, a variable its recorded interval. */
  lemma LeavesExact(n: nat, ty: IntType, d: Decl, iv: IntervalMap, hasCtx: bool)
    ensures Fits(SignExtended(n, ty.width)) ==>
              forall v :: EvalInterval(IntLit(n, ty), iv, hasCtx).Contains(v) <==> v == SignExtended(n, ty.width)
    ensures forall v :: EvalInterval(VarRef(d), iv, hasCtx).Contains(v) <==> (d in iv ==> iv[d].Contains(v))
    ensures hasCtx && 0 < ty.width <= (if ty.signed then 64 else 63) ==>
              forall v :: EvalInterval(UntrustedCall(ty), iv, hasCtx).Contains(v) <==> InType(ty, v)
  {
  }
}
