/** The interval lattice of src/engine/Interval.cpp: sets of integers between two optional bounds. */
module Intervals {
  import opened Int64

  datatype Bound = Infinite | Finite(v: int64)

  datatype RawInterval = Bottom | Between(lo: Bound, hi: Bound) {

    /** A non-empty interval has its bounds in order. */
    predicate Proper() {
      Between? && lo.Finite? && hi.Finite? ==> lo.v <= hi.v
    }

    /** Membership, for every mathematical integer. */
    predicate Contains(v: int) {
      && Between?
      && (lo.Finite? ==> lo.v as int <= v)
      && (hi.Finite? ==> v <= hi.v as int)
    }

    predicate LoIsInf() {
      Bottom? || lo.Infinite?
    }

    predicate HiIsInf() {
      Bottom? || hi.Infinite?
    }

    /** The single value, if the interval pins one. */
    function Singleton(): (r: Option<int64>)
      ensures r.Some? ==> forall v :: Contains(v) <==> v == r.value as int
      ensures r.None? && Proper() && Between? ==> forall c :: Contains(c) ==> Contains(c - 1) || Contains(c + 1)
    {
      if Between? && lo.Finite? && hi.Finite? && lo.v == hi.v then Some(lo.v) else None
    }
  }

  type Interval = i: RawInterval | i.Proper() witness Between(Infinite, Infinite)

  const Top: Interval := Between(Infinite, Infinite)

  function Range(lo: int64, hi: int64): (r: Interval)
    ensures forall v :: r.Contains(v) <==> lo as int <= v <= hi as int
  {
    if lo > hi then Bottom else Between(Finite(lo), Finite(hi))
  }

  function Constant(c: int64): (r: Interval)
    ensures forall v :: r.Contains(v) <==> v == c as int
  {
    Range(c, c)
  }

  function AtLeast(lo: int64): Interval {
    Between(Finite(lo), Infinite)
  }

  function AtMost(hi: int64): Interval {
    Between(Infinite, Finite(hi))
  }

  ghost predicate Subset(a: RawInterval, b: RawInterval) {
    forall v :: a.Contains(v) ==> b.Contains(v)
  }

  ghost predicate Covers(r: Interval, s: int -> bool) {
    forall v :: s(v) ==> r.Contains(v)
  }

  /** r is the smallest interval that contains every integer of s. */
  ghost predicate Hull(r: Interval, s: int -> bool) {
    Covers(r, s) && forall j: Interval :: Covers(j, s) ==> Subset(r, j)
  }

  /** An interval whose finite bounds are reached, and whose infinite ones are approached, is the hull. */
  lemma HullByWitness(r: Interval, s: int -> bool, lows: int -> int, highs: int -> int)
    requires r.Between? && Covers(r, s)
    requires r.lo.Finite? ==> s(r.lo.v as int)
    requires r.hi.Finite? ==> s(r.hi.v as int)
    requires r.lo.Infinite? ==> forall n :: lows(n) <= n && s(lows(n))
    requires r.hi.Infinite? ==> forall n :: highs(n) >= n && s(highs(n))
    ensures Hull(r, s)
  {
    forall j: Interval | Covers(j, s)
      ensures Subset(r, j)
    {
      forall v | r.Contains(v)
        ensures j.Contains(v)
      {
        var below := if r.lo.Finite? then r.lo.v as int else lows(v);
        var above := if r.hi.Finite? then r.hi.v as int else highs(v);
        assert j.Contains(below) && j.Contains(above);
      }
    }
  }

  // --- Lattice operations ---

  function Smaller(a: int64, b: int64): int64 {
    if b < a then b else a
  }

  function Larger(a: int64, b: int64): int64 {
    if a < b then b else a
  }

  function Join(a: Interval, b: Interval): Interval {
    if a.Bottom? then b
    else if b.Bottom? then a
    else
      Between(
        if a.lo.Infinite? || b.lo.Infinite? then Infinite else Finite(Smaller(a.lo.v, b.lo.v)),
        if a.hi.Infinite? || b.hi.Infinite? then Infinite else Finite(Larger(a.hi.v, b.hi.v)))
  }

  function MeetLow(a: Bound, b: Bound): Bound {
    if a.Infinite? then b else if b.Infinite? then a else Finite(Larger(a.v, b.v))
  }

  function MeetHigh(a: Bound, b: Bound): Bound {
    if a.Infinite? then b else if b.Infinite? then a else Finite(Smaller(a.v, b.v))
  }

  function Meet(a: Interval, b: Interval): Interval {
    if a.Bottom? || b.Bottom? then Bottom
    else
      var r := Between(MeetLow(a.lo, b.lo), MeetHigh(a.hi, b.hi));
      if r.Proper() then r else Bottom
  }

  function Widen(prev: Interval, next: Interval): Interval {
    if prev.Bottom? || next.Bottom? then next
    else
      Between(
        if next.lo.Infinite? || (prev.lo.Finite? && next.lo.v < prev.lo.v) then Infinite else next.lo,
        if next.hi.Infinite? || (prev.hi.Finite? && next.hi.v > prev.hi.v) then Infinite else next.hi)
  }

  /** A point between any two non-empty intervals, used to compare their bounds. */
  function Member(a: Interval): (v: int)
    requires a.Between?
    ensures a.Contains(v)
  {
    if a.lo.Finite? then a.lo.v as int else if a.hi.Finite? then a.hi.v as int else 0
  }

  lemma SubsetBounds(a: Interval, b: Interval)
    ensures Subset(a, b) <==>
            a.Bottom? || (b.Between?
            && (b.lo.Finite? ==> a.lo.Finite? && b.lo.v <= a.lo.v)
            && (b.hi.Finite? ==> a.hi.Finite? && a.hi.v <= b.hi.v))
  {
    if a.Between? && Subset(a, b) {
      var m := Member(a);
      assert b.Contains(m);
      if b.lo.Finite? {
        var low := if a.lo.Finite? then a.lo.v as int else if m < b.lo.v as int then m else b.lo.v as int - 1;
        assert a.Contains(low);
      }
      if b.hi.Finite? {
        var high := if a.hi.Finite? then a.hi.v as int else if m > b.hi.v as int then m else b.hi.v as int + 1;
        assert a.Contains(high);
      }
    }
  }

  /** Two intervals are equal exactly when they have the same members, so `!=` detects every change. */
  lemma SameMembers(a: Interval, b: Interval)
    ensures a == b <==> forall v :: a.Contains(v) <==> b.Contains(v)
  {
    if forall v :: a.Contains(v) <==> b.Contains(v) {
      SubsetBounds(a, b);
      SubsetBounds(b, a);
      assert Subset(a, b) && Subset(b, a);
      assert a.Between? ==> b.Contains(Member(a));
      assert b.Between? ==> a.Contains(Member(b));
    }
  }

  lemma JoinIsLeast(a: Interval, b: Interval)
    ensures Subset(a, Join(a, b)) && Subset(b, Join(a, b))
    ensures forall j: Interval :: Subset(a, j) && Subset(b, j) ==> Subset(Join(a, b), j)
  {
    forall j: Interval | Subset(a, j) && Subset(b, j)
      ensures Subset(Join(a, b), j)
    {
      SubsetBounds(a, j);
      SubsetBounds(b, j);
      SubsetBounds(Join(a, b), j);
    }
  }

  lemma MeetIsIntersection(a: Interval, b: Interval)
    ensures forall v :: Meet(a, b).Contains(v) <==> a.Contains(v) && b.Contains(v)
  {
  }

  /**
   Widening loses nothing and keeps exactly the bounds that did not move outwards; along a
   growing chain each bound either stays put or becomes infinite.
   */
  lemma WidenStabilises(prev: Interval, next: Interval)
    ensures Subset(next, Widen(prev, next))
    ensures prev.Bottom? || next.Bottom? ==> Widen(prev, next) == next
    ensures prev.Between? && next.Between? ==>
              var w := Widen(prev, next);
              && w.Between?
              && (w.lo.Finite? <==> next.lo.Finite? && (prev.lo.Finite? ==> prev.lo.v <= next.lo.v))
              && (w.hi.Finite? <==> next.hi.Finite? && (prev.hi.Finite? ==> next.hi.v <= prev.hi.v))
              && (w.lo.Finite? ==> w.lo == next.lo) && (w.hi.Finite? ==> w.hi == next.hi)
    ensures prev.Between? && Subset(prev, next) ==>
              var w := Widen(prev, next);
              Subset(prev, w) && w.Between? && (w.lo == prev.lo || w.lo == Infinite) && (w.hi == prev.hi || w.hi == Infinite)
  {
    SubsetBounds(prev, next);
  }

  // --- Arithmetic ---

  function Negate(a: Interval): Interval {
    if a.Bottom? then a
    else if a.hi.Finite? && CheckedSub(0, a.hi.v).None? then Top
    else if a.lo.Finite? && CheckedSub(0, a.lo.v).None? then Top
    else
      Between(
        if a.hi.Infinite? then Infinite else Finite(CheckedSub(0, a.hi.v).value),
        if a.lo.Infinite? then Infinite else Finite(CheckedSub(0, a.lo.v).value))
  }

  function Add(a: Interval, b: Interval): Interval {
    if a.Bottom? || b.Bottom? then Bottom
    else if a.lo.Finite? && b.lo.Finite? && CheckedAdd(a.lo.v, b.lo.v).None? then Top
    else if a.hi.Finite? && b.hi.Finite? && CheckedAdd(a.hi.v, b.hi.v).None? then Top
    else
      Between(
        if a.lo.Infinite? || b.lo.Infinite? then Infinite else Finite(CheckedAdd(a.lo.v, b.lo.v).value),
        if a.hi.Infinite? || b.hi.Infinite? then Infinite else Finite(CheckedAdd(a.hi.v, b.hi.v).value))
  }

  function Sub(a: Interval, b: Interval): Interval {
    Add(a, Negate(b))
  }

  function Least(p: int64, q: int64, r: int64, s: int64): int64 {
    Smaller(Smaller(p, q), Smaller(r, s))
  }

  function Greatest(p: int64, q: int64, r: int64, s: int64): int64 {
    Larger(Larger(p, q), Larger(r, s))
  }

  function Mul(a: Interval, b: Interval): Interval {
    if a.Bottom? || b.Bottom? then Bottom
    else if a.Singleton() == Some(0) || b.Singleton() == Some(0) then Constant(0)
    else if a.lo.Infinite? || a.hi.Infinite? || b.lo.Infinite? || b.hi.Infinite? then Top
    else
      var p, q := CheckedMul(a.lo.v, b.lo.v), CheckedMul(a.lo.v, b.hi.v);
      var r, s := CheckedMul(a.hi.v, b.lo.v), CheckedMul(a.hi.v, b.hi.v);
      if p.None? || q.None? || r.None? || s.None? then Top
      else Range(Least(p.value, q.value, r.value, s.value), Greatest(p.value, q.value, r.value, s.value))
  }

  ghost predicate IsSum(a: Interval, b: Interval, v: int) {
    exists x, y :: a.Contains(x) && b.Contains(y) && v == x + y
  }

  ghost predicate IsDifference(a: Interval, b: Interval, v: int) {
    exists x, y :: a.Contains(x) && b.Contains(y) && v == x - y
  }

  ghost predicate IsProduct(a: Interval, b: Interval, v: int) {
    exists x, y :: a.Contains(x) && b.Contains(y) && v == x * y
  }

  ghost function Negations(a: Interval): int -> bool {
    v => a.Contains(-v)
  }

  ghost function Sums(a: Interval, b: Interval): int -> bool {
    v => IsSum(a, b, v)
  }

  ghost function Differences(a: Interval, b: Interval): int -> bool {
    v => IsDifference(a, b, v)
  }

  ghost function Products(a: Interval, b: Interval): int -> bool {
    v => IsProduct(a, b, v)
  }

  lemma NegateSound(a: Interval, x: int)
    requires a.Contains(x)
    ensures Negate(a).Contains(-x)
  {
  }

  lemma AddSound(a: Interval, b: Interval, x: int, y: int)
    requires a.Contains(x) && b.Contains(y)
    ensures Add(a, b).Contains(x + y)
  {
  }

  lemma SubSound(a: Interval, b: Interval, x: int, y: int)
    requires a.Contains(x) && b.Contains(y)
    ensures Sub(a, b).Contains(x - y)
  {
    NegateSound(b, y);
    AddSound(a, Negate(b), x, -y);
  }

  lemma FactorBetween(x: int, lo: int, hi: int, y: int)
    requires lo <= x <= hi
    ensures lo * y <= x * y <= hi * y || hi * y <= x * y <= lo * y
  {
    assert x * y == lo * y + (x - lo) * y;
    assert hi * y == x * y + (hi - x) * y;
    if y >= 0 {
      NonNegativeProduct(x - lo, y);
      NonNegativeProduct(hi - x, y);
    } else {
      assert (x - lo) * y == -((x - lo) * -y);
      assert (hi - x) * y == -((hi - x) * -y);
      NonNegativeProduct(x - lo, -y);
      NonNegativeProduct(hi - x, -y);
    }
  }

  lemma MulSound(a: Interval, b: Interval, x: int, y: int)
    requires a.Contains(x) && b.Contains(y)
    ensures Mul(a, b).Contains(x * y)
  {
    if a.lo.Finite? && a.hi.Finite? && b.lo.Finite? && b.hi.Finite? {
      var al, ah, bl, bh := a.lo.v as int, a.hi.v as int, b.lo.v as int, b.hi.v as int;
      FactorBetween(x, al, ah, y);
      FactorBetween(y, bl, bh, al);
      FactorBetween(y, bl, bh, ah);
      assert bl * al == al * bl && bh * al == al * bh && y * al == al * y;
      assert bl * ah == ah * bl && bh * ah == ah * bh && y * ah == ah * y;
    }
    if a.Singleton() == Some(0) || b.Singleton() == Some(0) {
      assert x == 0 || y == 0;
      assert x * y == 0;
    }
  }

  /** A member of a at or below n; one exists for every n when a has no lower bound. */
  function Below(a: Interval, n: int): int
    requires a.Between?
  {
    if a.Contains(n) then n else Member(a)
  }

  /** No finite bound is the one 64-bit value without a 64-bit opposite. */
  predicate NegationFits(a: Interval) {
    a.Between? ==> a.lo != Finite(MIN64) && a.hi != Finite(MIN64)
  }

  /** Negation is the tightest interval of the negated members exactly when no bound is INT64_MIN; then it is top. */
  lemma NegateTight(a: Interval)
    requires a.Between?
    ensures if NegationFits(a) then Hull(Negate(a), Negations(a)) else Negate(a) == Top
  {
    if NegationFits(a) {
      NegationHull(a);
    }
  }

  lemma NegationHull(a: Interval)
    requires a.Between? && NegationFits(a)
    ensures Hull(Negate(a), Negations(a))
  {
    forall v | a.Contains(-v)
      ensures Negate(a).Contains(v)
    {
      NegateSound(a, -v);
    }
    HullByWitness(Negate(a), Negations(a),
      n => if a.Contains(-n) then n else -Member(a), n => if a.Contains(-n) then n else -Member(a));
  }

  lemma SumWitness(a: Interval, b: Interval, x: int, y: int)
    requires a.Contains(x) && b.Contains(y)
    ensures IsSum(a, b, x + y)
  {
  }

  /** The pairwise sums reach arbitrarily far on a side where an operand is unbounded. */
  lemma SumsUnbounded(a: Interval, b: Interval, n: int, down: bool) returns (v: int)
    requires a.Between? && b.Between?
    requires if down then a.lo.Infinite? || b.lo.Infinite? else a.hi.Infinite? || b.hi.Infinite?
    ensures IsSum(a, b, v) && (if down then v <= n else v >= n)
  {
    var x, y := Member(a), Member(b);
    if (if down then a.lo.Infinite? else a.hi.Infinite?) {
      x := if (if down then x <= n - y else x >= n - y) then x else n - y;
    } else {
      y := if (if down then y <= n - x else y >= n - x) then y else n - x;
    }
    SumWitness(a, b, x, y);
    v := x + y;
  }

  /** Two finite bounds on one side have a 64-bit sum. */
  predicate SumFits(a: Interval, b: Interval) {
    a.Between? && b.Between? ==>
      && (a.lo.Finite? && b.lo.Finite? ==> Fits(a.lo.v as int + b.lo.v as int))
      && (a.hi.Finite? && b.hi.Finite? ==> Fits(a.hi.v as int + b.hi.v as int))
  }

  /** Addition is the tightest interval of the pairwise sums when its bounds are 64-bit values, and top otherwise. */
  lemma AddTight(a: Interval, b: Interval)
    requires a.Between? && b.Between?
    ensures if SumFits(a, b) then Hull(Add(a, b), Sums(a, b)) else Add(a, b) == Top
  {
    if SumFits(a, b) {
      SumHull(a, b);
    }
  }

  lemma SumHull(a: Interval, b: Interval)
    requires a.Between? && b.Between? && SumFits(a, b)
    ensures Hull(Add(a, b), Sums(a, b))
  {
    var r, s := Add(a, b), Sums(a, b);
    forall v | s(v)
      ensures r.Contains(v)
    {
      var x, y :| a.Contains(x) && b.Contains(y) && v == x + y;
      AddSound(a, b, x, y);
    }
    forall j: Interval | Covers(j, s)
      ensures Subset(r, j)
    {
      SumWitness(a, b, Member(a), Member(b));
      assert s(Member(a) + Member(b));
      if r.lo.Infinite? {
        var v := SumsUnbounded(a, b, if j.lo.Finite? then j.lo.v as int - 1 else 0, true);
        assert s(v);
      } else {
        SumWitness(a, b, a.lo.v as int, b.lo.v as int);
        assert s(r.lo.v as int);
      }
      if r.hi.Infinite? {
        var v := SumsUnbounded(a, b, if j.hi.Finite? then j.hi.v as int + 1 else 0, false);
        assert s(v);
      } else {
        SumWitness(a, b, a.hi.v as int, b.hi.v as int);
        assert s(r.hi.v as int);
      }
      SubsetBounds(r, j);
    }
  }

  lemma DifferencesAreSums(a: Interval, b: Interval)
    requires b.Between? && NegationFits(b)
    ensures forall v :: IsDifference(a, b, v) <==> IsSum(a, Negate(b), v)
  {
    forall v | IsDifference(a, b, v)
      ensures IsSum(a, Negate(b), v)
    {
      var x, y :| a.Contains(x) && b.Contains(y) && v == x - y;
      NegateSound(b, y);
      SumWitness(a, Negate(b), x, -y);
    }
    forall v | IsSum(a, Negate(b), v)
      ensures IsDifference(a, b, v)
    {
      var x, y :| a.Contains(x) && Negate(b).Contains(y) && v == x + y;
      assert b.Contains(-y) && v == x - (-y);
    }
  }

  /** The bounds of the difference, and the negated right bounds it is computed with, are 64-bit values. */
  predicate DifferenceFits(a: Interval, b: Interval) {
    a.Between? && b.Between? ==>
      && NegationFits(b)
      && (a.lo.Finite? && b.hi.Finite? ==> Fits(a.lo.v as int - b.hi.v as int))
      && (a.hi.Finite? && b.lo.Finite? ==> Fits(a.hi.v as int - b.lo.v as int))
  }

  /** Subtraction is tight exactly then, although it goes through a negation; otherwise it is top. */
  lemma SubTight(a: Interval, b: Interval)
    requires a.Between? && b.Between?
    ensures if DifferenceFits(a, b) then Hull(Sub(a, b), Differences(a, b)) else Sub(a, b) == Top
  {
    if DifferenceFits(a, b) {
      SumHull(a, Negate(b));
      DifferencesAreSums(a, b);
      assert forall j: Interval :: Covers(j, Differences(a, b)) <==> Covers(j, Sums(a, Negate(b)));
    }
  }

  lemma ProductWitness(a: Interval, b: Interval, x: int, y: int)
    requires a.Contains(x) && b.Contains(y)
    ensures IsProduct(a, b, x * y)
  {
  }

  /** One side is the constant zero, or both are bounded and the four products of bounds are 64-bit values. */
  predicate ProductBounded(a: Interval, b: Interval) {
    a.Between? && b.Between? ==>
      || a.Singleton() == Some(0) || b.Singleton() == Some(0)
      || (&& a.lo.Finite? && a.hi.Finite? && b.lo.Finite? && b.hi.Finite?
          && Fits(a.lo.v as int * b.lo.v as int) && Fits(a.lo.v as int * b.hi.v as int)
          && Fits(a.hi.v as int * b.lo.v as int) && Fits(a.hi.v as int * b.hi.v as int))
  }

  /** Multiplication is the tightest interval of the pairwise products then, and top otherwise. */
  lemma MulTight(a: Interval, b: Interval)
    requires a.Between? && b.Between?
    ensures if ProductBounded(a, b) then Hull(Mul(a, b), Products(a, b)) else Mul(a, b) == Top
  {
    if ProductBounded(a, b) {
      ProductHull(a, b);
    }
  }

  lemma ProductHull(a: Interval, b: Interval)
    requires a.Between? && b.Between? && ProductBounded(a, b)
    ensures Hull(Mul(a, b), Products(a, b))
  {
    var r, s := Mul(a, b), Products(a, b);
    forall v | s(v)
      ensures r.Contains(v)
    {
      var x, y :| a.Contains(x) && b.Contains(y) && v == x * y;
      MulSound(a, b, x, y);
    }
    ProductWitness(a, b, Member(a), Member(b));
    if r == Constant(0) {
      assert r.Contains(Member(a) * Member(b));
      assert s(0);
    } else {
      ProductWitness(a, b, a.lo.v as int, b.lo.v as int);
      ProductWitness(a, b, a.lo.v as int, b.hi.v as int);
      ProductWitness(a, b, a.hi.v as int, b.lo.v as int);
      ProductWitness(a, b, a.hi.v as int, b.hi.v as int);
    }
    HullByWitness(r, s, n => n, n => n);
  }

  // --- Guard refinement ---

  function ConstrainLe(i: Interval, c: int64): Interval {
    Meet(i, AtMost(c))
  }

  function ConstrainLt(i: Interval, c: int64): Interval {
    if c == MIN64 then Bottom else Meet(i, AtMost(c - 1))
  }

  function ConstrainGe(i: Interval, c: int64): Interval {
    Meet(i, AtLeast(c))
  }

  function ConstrainGt(i: Interval, c: int64): Interval {
    if c == MAX64 then Bottom else Meet(i, AtLeast(c + 1))
  }

  function ConstrainEq(i: Interval, c: int64): Interval {
    Meet(i, Constant(c))
  }

  function ConstrainNe(i: Interval, c: int64): Interval {
    if i.Bottom? then i
    else if i.lo == Finite(c) then
      if i.hi == i.lo then Bottom
      else Meet(i, AtLeast(if c == MAX64 then c else c + 1))
    else if i.hi == Finite(c) then
      Meet(i, AtMost(if c == MIN64 then c else c - 1))
    else i
  }
}
