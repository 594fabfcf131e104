/**
 Summaries of calls through a closed set of function pointers: mergeTargetSummaries of
 src/engine/FunctionSummary.cpp, against what the called functions can do.
 */
module TargetMerge {
  import opened Int64
  import opened Summaries
  import opened SummaryMerge
  import opened SummaryRegistry
  import I = Intervals
  import Scc

  type Node = Scc.Node
  type Table = map<Node, Summary>

  function JoinNullness(a: Nullness, b: Nullness): Nullness {
    if a == AnyNull || b == AnyNull then AnyNull else if a == b then a else MaybeNull
  }

  function JoinZeroness(a: Zeroness, b: Zeroness): Zeroness {
    if a == AnyZero || b == AnyZero then AnyZero else if a == b then a else MaybeZero
  }

  predicate MayRead(a: Access) {
    a != NoAccess && a != Writes
  }

  predicate MayWrite(a: Access) {
    a != NoAccess && a != Reads
  }

  function JoinAccess(a: Access, b: Access): Access {
    if a == AnyAccess || b == AnyAccess then AnyAccess
    else
      var read, write := MayRead(a) || MayRead(b), MayWrite(a) || MayWrite(b);
      if read && write then ReadsWrites else if read then Reads else if write then Writes else NoAccess
  }

  function JoinAccesses(a: seq<Access>, b: seq<Access>): seq<Access> {
    if |a| != |b| then [] else seq(|a|, i requires 0 <= i < |a| => JoinAccess(a[i], b[i]))
  }

  /** The side whose null condition the joined call keeps. */
  function Conditioned(a: Summary, b: Summary): Option<Summary> {
    if a.nullness == MaybeNull && b.nullness == NeverNull then Some(a)
    else if a.nullness == NeverNull && b.nullness == MaybeNull then Some(b)
    else if a.nullness == MaybeNull && b.nullness == MaybeNull
            && a.nullCondParam == b.nullCondParam && a.nullCondRange == b.nullCondRange then Some(a)
    else None
  }

  /** mergeTargetSummaries. */
  function MergeTargets(a: Summary, b: Summary): Summary {
    var c := Conditioned(a, b);
    Merge(a, b).(
      nullness := JoinNullness(a.nullness, b.nullness),
      nullCondParam := if c.Some? then c.value.nullCondParam else -1,
      nullCondRange := if c.Some? then c.value.nullCondRange else I.Top,
      zeroness := JoinZeroness(a.zeroness, b.zeroness),
      accesses := JoinAccesses(a.accesses, b.accesses))
  }

  // --- What a summary says about one call ---

  /**
   A function and one call of it: its integer arguments, whether it returned null or zero or
   an argument's own object, and per parameter what was done with it.
   */
  datatype Behaviour = Behaviour(
    args: nat -> Option<int>,
    isNull: bool,
    isZero: bool,
    returnsEntry: nat -> bool,   // the returned pointer is this argument
    owned: bool,
    borrowed: bool,
    nullArg: nat -> bool,
    rejected: nat -> bool,       // returned an error because of this argument
    read: nat -> bool,
    written: nat -> bool,
    fields: nat -> set<string>,
    freed: nat -> bool,
    stored: nat -> bool,
    outNull: nat -> bool,        // the pointer behind this argument is null on return
    sized: nat -> bool)          // this argument was an allocation's size

  predicate ParamHonest(s: Summary, b: Behaviour, i: nat) {
    && (s.ParamEffect(i) == ReadsOnly ==> !b.freed(i) && !b.stored(i))
    && (s.ParamEffect(i) == Frees ==> b.freed(i))
    && (s.ParamEffect(i) == Stores ==> b.stored(i))
    && (!MayRead(s.ParamAccess(i)) ==> !b.read(i))
    && (!MayWrite(s.ParamAccess(i)) ==> !b.written(i))
    && (s.ExactFieldWrites(i).Some? ==> b.fields(i) <= s.ExactFieldWrites(i).value)
    && (s.ParamOwnership(i) == Borrowed ==> !b.freed(i) && !b.stored(i))
    && (s.ParamOwnership(i) == Consumed ==> b.freed(i))
    && (s.ParamOwnership(i) == Transferred ==> b.stored(i))
    && (s.ParamPrecondition(i) == NonNullCrash ==> !b.nullArg(i))
    && (s.ParamPrecondition(i) == NonNullRejected && b.nullArg(i) ==> b.rejected(i))
    && (s.ParamPostcondition(i) == PostNull ==> b.outNull(i))
    && (s.ParamPostcondition(i) == PostNonNull ==> !b.outNull(i))
    && (s.ParamAllocatorSize(i) == Sink ==> b.sized(i))
    && (s.ParamAllocatorSize(i) == NoSize ==> !b.sized(i))
  }

  /** A null result contradicts the summary's conditions and passthroughs unless they allow it. */
  predicate ReturnHonest(s: Summary, b: Behaviour) {
    && (s.nullness == NeverNull ==> !b.isNull)
    && (s.HasNullCondition() && b.isNull && b.args(s.nullCondParam).Some? ==> !s.nullCondRange.Contains(b.args(s.nullCondParam).value))
    && (s.nullFromParam >= 0 && b.isNull ==> b.nullArg(s.nullFromParam))
    && (s.zeroness == NeverZero ==> !b.isZero)
    && (s.zeroness == AlwaysZero ==> b.isZero)
    && (s.zeroFromParam >= 0 && b.isZero ==> b.args(s.zeroFromParam) == Some(0) || b.args(s.zeroFromParam).None?)
    && (s.returnAliasParam >= 0 ==> b.returnsEntry(s.returnAliasParam))
    && (s.ownership == ReturnsOwned ==> b.owned)
    && (s.ownership == ReturnsBorrowed ==> b.borrowed)
  }

  /** Everything the summary claims is true of the call. */
  ghost predicate Honest(s: Summary, b: Behaviour) {
    ReturnHonest(s, b) && forall i: nat :: ParamHonest(s, b, i)
  }

  /** A weaker summary says nothing false where a stronger one does not. */
  lemma WeakerHonest(c: Summary, a: Summary, b: Behaviour)
    requires Weaker(c, a) && Honest(a, b)
    ensures Honest(c, b)
  {
    forall i: nat
      ensures ParamHonest(c, b, i)
    {
      assert ParamNoStronger(c, a, i) && ParamHonest(a, b, i);
    }
  }

  /** The conservative merge is true of every call either side is true of. */
  lemma MergeHonest(x: Summary, y: Summary, n: nat, b: Behaviour)
    requires WellFormed(x, n) && WellFormed(y, n) && (Honest(x, b) || Honest(y, b))
    ensures Honest(Merge(x, y), b)
  {
    hide Honest, Merge, Weaker, WellFormed;
    MergeIsStrongestCommonWeakening(x, y, x, n);
    if Honest(x, b) {
      WeakerHonest(Merge(x, y), x, b);
    } else {
      WeakerHonest(Merge(x, y), y, b);
    }
  }

  lemma JoinAccessMay(a: Access, b: Access)
    ensures MayRead(JoinAccess(a, b)) <==> MayRead(a) || MayRead(b)
    ensures MayWrite(JoinAccess(a, b)) <==> MayWrite(a) || MayWrite(b)
    ensures JoinAccess(a, b) == JoinAccess(b, a)
  {
  }

  lemma TargetParamHonest(x: Summary, y: Summary, n: nat, b: Behaviour, i: nat)
    requires WellFormed(x, n) && WellFormed(y, n)
    requires ParamHonest(Merge(x, y), b, i) && (ParamHonest(x, b, i) || ParamHonest(y, b, i))
    ensures ParamHonest(MergeTargets(x, y), b, i)
  {
    JoinAccessMay(x.ParamAccess(i), y.ParamAccess(i));
    hide Merge;
    assert MergeTargets(x, y).ParamAccess(i) == JoinAccess(x.ParamAccess(i), y.ParamAccess(i));
    SameButAccess(x, y, i);
  }

  lemma SameButAccess(x: Summary, y: Summary, i: nat)
    ensures var m, t := Merge(x, y), MergeTargets(x, y);
            && t.ParamEffect(i) == m.ParamEffect(i) && t.ExactFieldWrites(i) == m.ExactFieldWrites(i)
            && t.ParamOwnership(i) == m.ParamOwnership(i) && t.ParamPrecondition(i) == m.ParamPrecondition(i)
            && t.ParamPostcondition(i) == m.ParamPostcondition(i) && t.ParamAllocatorSize(i) == m.ParamAllocatorSize(i)
  {
    hide MergeVectors, MergeFieldWrites, MergeReturns;
  }

  lemma TargetReturnHonest(x: Summary, y: Summary, n: nat, b: Behaviour)
    requires WellFormed(x, n) && WellFormed(y, n) && (ReturnHonest(x, b) || ReturnHonest(y, b))
    ensures ReturnHonest(MergeTargets(x, y), b)
  {
    hide MergeVectors, MergeFieldWrites, JoinAccesses;
  }

  /** A call that may go to either target does what the joined summary says, whichever it goes to. */
  lemma MergeTargetsHonest(x: Summary, y: Summary, n: nat, b: Behaviour)
    requires WellFormed(x, n) && WellFormed(y, n) && (Honest(x, b) || Honest(y, b))
    ensures Honest(MergeTargets(x, y), b)
  {
    MergeHonest(x, y, n, b);
    hide WellFormed, Merge, MergeTargets, ParamHonest, ReturnHonest;
    TargetReturnHonest(x, y, n, b);
    forall i: nat
      ensures ParamHonest(MergeTargets(x, y), b, i)
    {
      TargetParamHonest(x, y, n, b, i);
    }
  }

  lemma MergeTargetsWellFormed(x: Summary, y: Summary, n: nat)
    requires WellFormed(x, n) && WellFormed(y, n)
    ensures WellFormed(MergeTargets(x, y), n)
  {
  }

  // --- How much the joined summary still claims ---

  /** Definite answers, then "either", then nothing known. */
  predicate NullnessAtMost(c: Nullness, a: Nullness) {
    c == a || c == AnyNull || (c == MaybeNull && a == NeverNull)
  }

  predicate ZeronessAtMost(c: Zeroness, a: Zeroness) {
    c == a || c == AnyZero || (c == MaybeZero && (a == AlwaysZero || a == NeverZero))
  }

  /** Whatever a's calls may do, c allows. */
  predicate AccessAtMost(c: Access, a: Access) {
    c == AnyAccess || (a != AnyAccess && (MayRead(a) ==> MayRead(c)) && (MayWrite(a) ==> MayWrite(c)))
  }

  /** A condition holds of calls that never return null, and of those that carry it. */
  predicate ConditionAtMost(c: Summary, a: Summary) {
    c.HasNullCondition() ==> a.nullness == NeverNull || (a.nullCondParam == c.nullCondParam && a.nullCondRange == c.nullCondRange)
  }

  predicate ReturnAtMost(c: Summary, a: Summary) {
    && NullnessAtMost(c.nullness, a.nullness) && ZeronessAtMost(c.zeroness, a.zeroness)
    && ConditionAtMost(c, a) && NoStronger(c.ownership, a.ownership, AnyOwner)
    && ClaimNoStronger(c.zeroFromParam, a.zeroFromParam) && ClaimNoStronger(c.nullFromParam, a.nullFromParam)
    && ClaimNoStronger(c.returnAliasParam, a.returnAliasParam)
  }

  predicate ParamAtMost(c: Summary, a: Summary, i: nat) {
    && AccessAtMost(c.ParamAccess(i), a.ParamAccess(i))
    && NoStronger(c.ParamEffect(i), a.ParamEffect(i), Opaque)
    && NoStronger(c.ParamOwnership(i), a.ParamOwnership(i), AnyOwnership)
    && FieldsNoStronger(c.ExactFieldWrites(i), a.ExactFieldWrites(i))
    && NoStronger(c.ParamPrecondition(i), a.ParamPrecondition(i), NoPrecondition)
    && NoStronger(c.ParamPostcondition(i), a.ParamPostcondition(i), AnyPostcondition)
    && NoStronger(c.ParamAllocatorSize(i), a.ParamAllocatorSize(i), AnySize)
  }

  /** c claims of a call no more than a does. */
  ghost predicate AtMost(c: Summary, a: Summary) {
    ReturnAtMost(c, a) && forall i: nat :: ParamAtMost(c, a, i)
  }

  lemma AccessJoinLeast(c: Access, a: Access, b: Access)
    ensures AccessAtMost(c, a) && AccessAtMost(c, b) <==> AccessAtMost(c, JoinAccess(a, b))
  {
  }

  lemma ReturnsLeast(x: Summary, y: Summary, c: Summary, n: nat)
    requires WellFormed(x, n) && WellFormed(y, n) && WellFormed(c, n)
    ensures ReturnAtMost(c, x) && ReturnAtMost(c, y) <==> ReturnAtMost(c, MergeTargets(x, y))
  {
    hide MergeVectors, MergeFieldWrites, JoinAccesses;
  }

  lemma ParamsLeast(x: Summary, y: Summary, c: Summary, n: nat, i: nat)
    requires WellFormed(x, n) && WellFormed(y, n)
    ensures ParamAtMost(c, x, i) && ParamAtMost(c, y, i) <==> ParamAtMost(c, MergeTargets(x, y), i)
  {
    AccessJoinLeast(c.ParamAccess(i), x.ParamAccess(i), y.ParamAccess(i));
    SameButAccess(x, y, i);
    MergeAtParam(x, y, n, i);
    assert MergeTargets(x, y).ParamAccess(i) == JoinAccess(x.ParamAccess(i), y.ParamAccess(i)) by {
      hide Merge;
    }
    hide Merge, MergeTargets, AccessAtMost, JoinAccess;
  }

  lemma MergeAtParam(x: Summary, y: Summary, n: nat, i: nat)
    requires WellFormed(x, n) && WellFormed(y, n)
    ensures var m := Merge(x, y);
            && m.ParamEffect(i) == Agree(x.ParamEffect(i), y.ParamEffect(i), Opaque)
            && m.ParamOwnership(i) == Agree(x.ParamOwnership(i), y.ParamOwnership(i), AnyOwnership)
            && m.ParamPrecondition(i) == Agree(x.ParamPrecondition(i), y.ParamPrecondition(i), NoPrecondition)
            && m.ParamPostcondition(i) == Agree(x.ParamPostcondition(i), y.ParamPostcondition(i), AnyPostcondition)
            && m.ParamAllocatorSize(i) == Agree(x.ParamAllocatorSize(i), y.ParamAllocatorSize(i), AnySize)
            && (m.ExactFieldWrites(i).Some? <==> x.ExactFieldWrites(i).Some? && y.ExactFieldWrites(i).Some?)
            && (m.ExactFieldWrites(i).Some? ==> m.ExactFieldWrites(i).value == x.ExactFieldWrites(i).value + y.ExactFieldWrites(i).value)
  {
    hide MergeReturns;
  }

  /**
   The joined summary keeps everything that is true of both: a summary claims no more than
   either target's exactly when it claims no more than the joined one.
   */
  lemma MergeTargetsIsStrongest(x: Summary, y: Summary, c: Summary, n: nat)
    requires WellFormed(x, n) && WellFormed(y, n) && WellFormed(c, n)
    ensures AtMost(c, x) && AtMost(c, y) <==> AtMost(c, MergeTargets(x, y))
    ensures AtMost(MergeTargets(x, y), x) && AtMost(MergeTargets(x, y), y)
  {
    MergeTargetsWellFormed(x, y, n);
    hide WellFormed, MergeTargets, ReturnAtMost, ParamAtMost;
    var t := MergeTargets(x, y);
    ReturnsLeast(x, y, c, n);
    ReturnsLeast(x, y, t, n);
    forall i: nat
      ensures ParamAtMost(c, x, i) && ParamAtMost(c, y, i) <==> ParamAtMost(c, t, i)
      ensures ParamAtMost(t, x, i) && ParamAtMost(t, y, i)
    {
      ParamsLeast(x, y, c, n, i);
      ParamsLeast(x, y, t, n, i);
      ParamAtMostSelf(t, i);
    }
    ReturnAtMostSelf(t);
    if AtMost(c, t) {
      forall i: nat
        ensures ParamAtMost(c, x, i) && ParamAtMost(c, y, i)
      {
        assert ParamAtMost(c, t, i);
      }
    }
  }

  lemma ReturnAtMostSelf(t: Summary)
    ensures ReturnAtMost(t, t)
  {
  }

  lemma ParamAtMostSelf(t: Summary, i: nat)
    ensures ParamAtMost(t, t, i)
  {
  }

  lemma {:induction false} CombinedHonest(
    acc: Option<Summary>, targets: seq<Node>, local: Table, global: Table, n: nat, b: Behaviour)
    requires acc.Some? ==> WellFormed(acc.value, n)
    requires forall f :: f in targets && LookUp(local, global, f).Some? ==> WellFormed(LookUp(local, global, f).value, n)
    requires || (acc.Some? && Honest(acc.value, b))
             || exists f :: f in targets && LookUp(local, global, f).Some? && Honest(LookUp(local, global, f).value, b)
    ensures var r := Combined(acc, targets, local, global, MergeTargets); r.Some? ==> Honest(r.value, b)
    decreases |targets|
  {
    hide WellFormed, MergeTargets, Honest, LookUp;
    if targets != [] && LookUp(local, global, targets[0]).Some? {
      var s := LookUp(local, global, targets[0]).value;
      var next := if acc.None? then s else MergeTargets(acc.value, s);
      assert targets == [targets[0]] + targets[1..];
      if acc.Some? {
        MergeTargetsWellFormed(acc.value, s, n);
        if Honest(acc.value, b) || Honest(s, b) {
          MergeTargetsHonest(acc.value, s, n, b);
        }
      }
      CombinedHonest(Some(next), targets[1..], local, global, n, b);
    }
  }

  /** The summary kept for a call through a pointer is true of a call to any of its targets. */
  lemma AllTargetsHonest(
    indirect: map<CallId, seq<Node>>, call: CallId, f: Node, local: Table, global: Table, n: nat, b: Behaviour)
    requires call in CallSummaries(indirect, local, global, MergeTargets) && f in indirect[call]
    requires forall g :: g in indirect[call] && LookUp(local, global, g).Some? ==> WellFormed(LookUp(local, global, g).value, n)
    requires LookUp(local, global, f).Some? && Honest(LookUp(local, global, f).value, b)
    ensures Honest(CallSummaries(indirect, local, global, MergeTargets)[call], b)
  {
    hide WellFormed, Honest, LookUp;
    CombinedHonest(None, indirect[call], local, global, n, b);
  }

  class TargetCell {
    var into: Summary

    constructor (into: Summary)
      ensures this.into == into
    {
      this.into := into;
    }

    method JoinAccessesInto(left: seq<Access>, from: seq<Access>) returns (r: seq<Access>)
      ensures r == JoinAccesses(left, from)
    {
      r := [];
      if |left| != |from| {
        return;
      }
      for i := 0 to |left|
        invariant |r| == i && forall j :: 0 <= j < i ==> r[j] == JoinAccess(left[j], from[j])
      {
        r := r + [JoinAccess(left[i], from[i])];
      }
    }

    method MergeTarget(from: Summary)
      modifies this
      ensures into == MergeTargets(old(into), from)
    {
      hide Merge;
      var left := into;
      var cell := new Cell(into);
      cell.MergeConservative(from);
      into := cell.into;
      var condParam, condRange := -1, I.Top;
      var conditioned := Conditioned(left, from);
      if conditioned.Some? {
        condParam, condRange := conditioned.value.nullCondParam, conditioned.value.nullCondRange;
      }
      var accesses := JoinAccessesInto(left.accesses, from.accesses);
      into := into.(
        nullness := JoinNullness(left.nullness, from.nullness), nullCondParam := condParam, nullCondRange := condRange,
        zeroness := JoinZeroness(left.zeroness, from.zeroness), accesses := accesses);
    }
  }
}
