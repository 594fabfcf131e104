/** The conservative merge of src/engine/FunctionSummary.cpp and the cross-file store built with it. */
module SummaryMerge {
  import opened Int64
  import opened Summaries
  import I = Intervals

  function Agree<T(==)>(a: T, b: T, weak: T): T {
    if a == b then a else weak
  }

  function MergeVectors<T(==)>(a: seq<T>, b: seq<T>, weak: T): seq<T> {
    if |a| != |b| then [] else seq(|a|, i requires 0 <= i < |a| => Agree(a[i], b[i], weak))
  }

  const UnknownFields: FieldSet := FieldSet(false, {})

  /** Either may have written, so both sets of names; nothing is known when one is unknown. */
  function MergeFieldSets(a: FieldSet, b: FieldSet): FieldSet {
    if !a.known || !b.known then UnknownFields else FieldSet(true, a.fields + b.fields)
  }

  function MergeFieldWrites(a: seq<FieldSet>, b: seq<FieldSet>): seq<FieldSet> {
    if |a| != |b| then [] else seq(|a|, i requires 0 <= i < |a| => MergeFieldSets(a[i], b[i]))
  }

  /** A passthrough claim survives agreement, and only where its axis is otherwise unknown. */
  function MergeClaim(a: int, b: int, home: bool): int {
    if a != b || !home then -1 else a
  }

  predicate KeepsCondition(a: Summary, b: Summary) {
    a.nullCondParam == b.nullCondParam && a.nullCondRange == b.nullCondRange && Agree(a.nullness, b.nullness, AnyNull) == MaybeNull
  }

  /** The return axes of the merge. */
  function MergeReturns(a: Summary, b: Summary): Summary {
    var nullness := Agree(a.nullness, b.nullness, AnyNull);
    var zeroness := Agree(a.zeroness, b.zeroness, AnyZero);
    a.(nullness := nullness,
       zeroness := zeroness,
       ownership := Agree(a.ownership, b.ownership, AnyOwner),
       zeroFromParam := MergeClaim(a.zeroFromParam, b.zeroFromParam, zeroness == AnyZero),
       nullFromParam := MergeClaim(a.nullFromParam, b.nullFromParam, nullness == AnyNull),
       returnAliasParam := MergeClaim(a.returnAliasParam, b.returnAliasParam, true),
       nullCondParam := if KeepsCondition(a, b) then a.nullCondParam else -1,
       nullCondRange := if KeepsCondition(a, b) then a.nullCondRange else I.Top)
  }

  /** mergeConservative. */
  function Merge(a: Summary, b: Summary): Summary {
    MergeReturns(a, b).(
      params := MergeVectors(a.params, b.params, Opaque),
      accesses := MergeVectors(a.accesses, b.accesses, AnyAccess),
      ownerships := MergeVectors(a.ownerships, b.ownerships, AnyOwnership),
      fieldWrites := MergeFieldWrites(a.fieldWrites, b.fieldWrites),
      preconditions := MergeVectors(a.preconditions, b.preconditions, NoPrecondition),
      postconditions := MergeVectors(a.postconditions, b.postconditions, AnyPostcondition),
      allocatorSizes := MergeVectors(a.allocatorSizes, b.allocatorSizes, AnySize))
  }

  // --- Strength of claims ---

  /** c is the weakest answer, or the same as a's. */
  predicate NoStronger<T(==)>(c: T, a: T, weak: T) {
    c == weak || c == a
  }

  predicate ClaimNoStronger(c: int, a: int) {
    c >= 0 ==> c == a
  }

  predicate ReturnNoStronger(c: Summary, a: Summary) {
    && NoStronger(c.nullness, a.nullness, AnyNull)
    && NoStronger(c.zeroness, a.zeroness, AnyZero)
    && NoStronger(c.ownership, a.ownership, AnyOwner)
    && ClaimNoStronger(c.zeroFromParam, a.zeroFromParam)
    && ClaimNoStronger(c.nullFromParam, a.nullFromParam)
    && ClaimNoStronger(c.returnAliasParam, a.returnAliasParam)
    && ClaimNoStronger(c.nullCondParam, a.nullCondParam)
    && (c.HasNullCondition() ==> c.nullCondRange == a.nullCondRange)
  }

  /** A larger set of fields that may be written claims less. */
  predicate FieldsNoStronger(c: Option<set<string>>, a: Option<set<string>>) {
    c.Some? ==> a.Some? && a.value <= c.value
  }

  predicate ParamNoStronger(c: Summary, a: Summary, i: nat) {
    && NoStronger(c.ParamEffect(i), a.ParamEffect(i), Opaque)
    && NoStronger(c.ParamAccess(i), a.ParamAccess(i), AnyAccess)
    && NoStronger(c.ParamOwnership(i), a.ParamOwnership(i), AnyOwnership)
    && FieldsNoStronger(c.ExactFieldWrites(i), a.ExactFieldWrites(i))
    && NoStronger(c.ParamPrecondition(i), a.ParamPrecondition(i), NoPrecondition)
    && NoStronger(c.ParamPostcondition(i), a.ParamPostcondition(i), AnyPostcondition)
    && NoStronger(c.ParamAllocatorSize(i), a.ParamAllocatorSize(i), AnySize)
  }

  /** c claims nothing that a does not claim. */
  ghost predicate Weaker(c: Summary, a: Summary) {
    ReturnNoStronger(c, a) && forall i: nat :: ParamNoStronger(c, a, i)
  }

  lemma WeakerReflexive(a: Summary)
    ensures Weaker(a, a)
  {
  }

  lemma WeakerTransitive(a: Summary, b: Summary, c: Summary)
    requires Weaker(c, b) && Weaker(b, a)
    ensures Weaker(c, a)
  {
    forall i: nat
      ensures ParamNoStronger(c, a, i)
    {
      assert ParamNoStronger(c, b, i) && ParamNoStronger(b, a, i);
    }
  }

  /** Two summaries each no stronger than the other answer alike. */
  lemma WeakerAntisymmetric(a: Summary, b: Summary)
    requires Weaker(a, b) && Weaker(b, a)
    ensures SameAnswers(a, b)
  {
    forall i: nat
      ensures SameParamAnswers(a, b, i)
    {
      assert ParamNoStronger(a, b, i) && ParamNoStronger(b, a, i);
      var f, g := a.ExactFieldWrites(i), b.ExactFieldWrites(i);
      assert f.Some? ==> f.value == g.value;
    }
  }

  lemma MergeWellFormed(a: Summary, b: Summary, n: nat)
    requires WellFormed(a, n) && WellFormed(b, n)
    ensures WellFormed(Merge(a, b), n)
  {
  }

  lemma MergeReturnsStrength(a: Summary, b: Summary, c: Summary, n: nat)
    requires WellFormed(a, n) && WellFormed(b, n) && WellFormed(c, n)
    ensures ReturnNoStronger(Merge(a, b), a) && ReturnNoStronger(Merge(a, b), b)
    ensures ReturnNoStronger(c, a) && ReturnNoStronger(c, b) ==> ReturnNoStronger(c, Merge(a, b))
  {
  }

  lemma MergeParamsStrength(a: Summary, b: Summary, c: Summary, n: nat, i: nat)
    requires WellFormed(a, n) && WellFormed(b, n) && WellFormed(c, n)
    ensures ParamNoStronger(Merge(a, b), a, i) && ParamNoStronger(Merge(a, b), b, i)
    ensures ParamNoStronger(c, a, i) && ParamNoStronger(c, b, i) ==> ParamNoStronger(c, Merge(a, b), i)
  {
  }

  /**
   The merge never claims more than either side, and among the summaries that do not it
   claims the most: it is the strongest common weakening.
   */
  lemma MergeIsStrongestCommonWeakening(a: Summary, b: Summary, c: Summary, n: nat)
    requires WellFormed(a, n) && WellFormed(b, n) && WellFormed(c, n)
    ensures Weaker(Merge(a, b), a) && Weaker(Merge(a, b), b)
    ensures Weaker(c, a) && Weaker(c, b) ==> Weaker(c, Merge(a, b))
  {
    hide Merge, WellFormed, ReturnNoStronger, ParamNoStronger;
    MergeReturnsStrength(a, b, c, n);
    forall i: nat
      ensures ParamNoStronger(Merge(a, b), a, i) && ParamNoStronger(Merge(a, b), b, i)
      ensures ParamNoStronger(c, a, i) && ParamNoStronger(c, b, i) ==> ParamNoStronger(c, Merge(a, b), i)
    {
      MergeParamsStrength(a, b, c, n, i);
    }
  }

  lemma MergeCommutes(a: Summary, b: Summary, n: nat)
    requires WellFormed(a, n) && WellFormed(b, n)
    ensures SameAnswers(Merge(a, b), Merge(b, a))
  {
    hide Merge, WellFormed, Weaker, SameAnswers;
    MergeWellFormed(a, b, n);
    MergeWellFormed(b, a, n);
    MergeIsStrongestCommonWeakening(a, b, Merge(b, a), n);
    MergeIsStrongestCommonWeakening(b, a, Merge(a, b), n);
    WeakerAntisymmetric(Merge(a, b), Merge(b, a));
  }

  lemma MergeIdempotent(a: Summary, n: nat)
    requires WellFormed(a, n)
    ensures SameAnswers(Merge(a, a), a)
  {
    hide Merge, WellFormed, Weaker, SameAnswers;
    WeakerReflexive(a);
    MergeIsStrongestCommonWeakening(a, a, a, n);
    WeakerAntisymmetric(Merge(a, a), a);
  }

  lemma MergeAssociates(a: Summary, b: Summary, c: Summary, n: nat)
    requires WellFormed(a, n) && WellFormed(b, n) && WellFormed(c, n)
    ensures SameAnswers(Merge(Merge(a, b), c), Merge(a, Merge(b, c)))
  {
    hide Merge, WellFormed, Weaker, SameAnswers;
    var l, r := Merge(Merge(a, b), c), Merge(a, Merge(b, c));
    MergeWellFormed(a, b, n);
    MergeWellFormed(b, c, n);
    MergeWellFormed(Merge(a, b), c, n);
    MergeWellFormed(a, Merge(b, c), n);
    WeakenedBelowAll(a, b, c, n);
    MergeIsStrongestCommonWeakening(b, c, l, n);
    MergeIsStrongestCommonWeakening(a, Merge(b, c), l, n);
    MergeIsStrongestCommonWeakening(a, b, r, n);
    MergeIsStrongestCommonWeakening(Merge(a, b), c, r, n);
    WeakerAntisymmetric(l, r);
  }

  /** Both ways of merging three summaries are weaker than each of them. */
  lemma WeakenedBelowAll(a: Summary, b: Summary, c: Summary, n: nat)
    requires WellFormed(a, n) && WellFormed(b, n) && WellFormed(c, n)
    ensures var l, r := Merge(Merge(a, b), c), Merge(a, Merge(b, c));
            && Weaker(l, a) && Weaker(l, b) && Weaker(l, c)
            && Weaker(r, a) && Weaker(r, b) && Weaker(r, c)
  {
    hide Merge, WellFormed, Weaker;
    var l, r := Merge(Merge(a, b), c), Merge(a, Merge(b, c));
    MergeWellFormed(a, b, n);
    MergeWellFormed(b, c, n);
    MergeIsStrongestCommonWeakening(a, b, a, n);
    MergeIsStrongestCommonWeakening(b, c, b, n);
    MergeIsStrongestCommonWeakening(Merge(a, b), c, c, n);
    MergeIsStrongestCommonWeakening(a, Merge(b, c), a, n);
    WeakerTransitive(a, Merge(a, b), l);
    WeakerTransitive(b, Merge(a, b), l);
    WeakerTransitive(b, Merge(b, c), r);
    WeakerTransitive(c, Merge(b, c), r);
  }

  /** The ownership columns are dropped for their lengths, and an agreed effect answers what one side does not. */
  predicate Resurfaces(a: Summary, b: Summary, i: nat) {
    && |a.ownerships| != |b.ownerships| && |a.params| == |b.params|
    && i < |a.params| && a.params[i] == b.params[i] && a.params[i] != Opaque
    && (ImpliedOwnership(a.params[i]) != a.ParamOwnership(i) || ImpliedOwnership(a.params[i]) != b.ParamOwnership(i))
  }

  lemma MergedOwnership(a: Summary, b: Summary, i: nat)
    ensures var r := Merge(a, b).ParamOwnership(i);
            NoStronger(r, a.ParamOwnership(i), AnyOwnership) && NoStronger(r, b.ParamOwnership(i), AnyOwnership)
            <==> !Resurfaces(a, b, i)
  {
  }

  lemma MergedOtherAxes(a: Summary, b: Summary, i: nat)
    ensures ReturnNoStronger(Merge(a, b), a) && ReturnNoStronger(Merge(a, b), b)
    ensures var r := Merge(a, b);
            && NoStronger(r.ParamOwnership(i), a.ParamOwnership(i), AnyOwnership) == ParamNoStronger(r, a, i)
            && NoStronger(r.ParamOwnership(i), b.ParamOwnership(i), AnyOwnership) == ParamNoStronger(r, b, i)
  {
  }

  /**
   For any two summaries, filled or not, the merge claims no more than either side exactly
   when no dropped ownership column lets an agreed effect resurface.
   */
  lemma MergeStrengthExact(a: Summary, b: Summary)
    ensures Weaker(Merge(a, b), a) && Weaker(Merge(a, b), b) <==> forall i: nat :: !Resurfaces(a, b, i)
  {
    hide Merge, Resurfaces, NoStronger, ParamNoStronger, ReturnNoStronger;
    forall i: nat
      ensures ParamNoStronger(Merge(a, b), a, i) && ParamNoStronger(Merge(a, b), b, i) <==> !Resurfaces(a, b, i)
    {
      MergedOwnership(a, b, i);
      MergedOtherAxes(a, b, i);
    }
    MergedOtherAxes(a, b, 0);
  }

  // --- In place ---

  method MergeInto<T(==)>(into: seq<T>, from: seq<T>, weak: T) returns (r: seq<T>)
    ensures r == MergeVectors(into, from, weak)
  {
    r := into;
    if |r| != |from| {
      return [];
    }
    for i := 0 to |r|
      invariant |r| == |into|
      invariant forall j :: 0 <= j < |r| ==> r[j] == if j < i then MergeVectors(into, from, weak)[j] else into[j]
    {
      if r[i] != from[i] {
        r := r[i := weak];
      }
    }
  }

  method MergeFieldsInto(into: seq<FieldSet>, from: seq<FieldSet>) returns (r: seq<FieldSet>)
    ensures r == MergeFieldWrites(into, from)
  {
    r := into;
    if |r| != |from| {
      return [];
    }
    for i := 0 to |r|
      invariant |r| == |into|
      invariant forall j :: 0 <= j < |r| ==> r[j] == if j < i then MergeFieldWrites(into, from)[j] else into[j]
    {
      if !r[i].known || !from[i].known {
        r := r[i := UnknownFields];
      } else {
        r := r[i := r[i].(fields := r[i].fields + from[i].fields)];
      }
    }
  }

  class Cell {
    var into: Summary

    constructor (into: Summary)
      ensures this.into == into
    {
      this.into := into;
    }

    method MergeReturnAxes(from: Summary)
      modifies this
      ensures into == MergeReturns(old(into), from)
    {
      var nullness, condParam, condRange := into.nullness, into.nullCondParam, into.nullCondRange;
      if nullness != from.nullness {
        nullness := AnyNull;
      }
      if condParam != from.nullCondParam || condRange != from.nullCondRange {
        condParam, condRange := -1, I.Top;
      }
      if nullness != MaybeNull {
        condParam, condRange := -1, I.Top;
      }
      var zeroness, ownership := into.zeroness, into.ownership;
      if zeroness != from.zeroness {
        zeroness := AnyZero;
      }
      if ownership != from.ownership {
        ownership := AnyOwner;
      }
      var zeroFrom, nullFrom, alias := into.zeroFromParam, into.nullFromParam, into.returnAliasParam;
      if zeroFrom != from.zeroFromParam || zeroness != AnyZero {
        zeroFrom := -1;
      }
      if nullFrom != from.nullFromParam || nullness != AnyNull {
        nullFrom := -1;
      }
      if alias != from.returnAliasParam {
        alias := -1;
      }
      into := into.(
        nullness := nullness, zeroness := zeroness, ownership := ownership,
        zeroFromParam := zeroFrom, nullFromParam := nullFrom, returnAliasParam := alias,
        nullCondParam := condParam, nullCondRange := condRange);
    }

    /** mergeConservative. */
    method MergeConservative(from: Summary)
      modifies this
      ensures into == Merge(old(into), from)
    {
      MergeReturnAxes(from);
      var params := MergeInto(into.params, from.params, Opaque);
      var accesses := MergeInto(into.accesses, from.accesses, AnyAccess);
      var ownerships := MergeInto(into.ownerships, from.ownerships, AnyOwnership);
      var fieldWrites := MergeFieldsInto(into.fieldWrites, from.fieldWrites);
      var preconditions := MergeInto(into.preconditions, from.preconditions, NoPrecondition);
      var postconditions := MergeInto(into.postconditions, from.postconditions, AnyPostcondition);
      var allocatorSizes := MergeInto(into.allocatorSizes, from.allocatorSizes, AnySize);
      into := into.(
        params := params, accesses := accesses, ownerships := ownerships, fieldWrites := fieldWrites,
        preconditions := preconditions, postconditions := postconditions, allocatorSizes := allocatorSizes);
    }
  }
}
