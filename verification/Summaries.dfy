/** Function summaries and what their accessors answer: src/engine/FunctionSummary.h. */
module Summaries {
  import opened Int64
  import I = Intervals

  type Interval = I.Interval

  datatype Nullness = AnyNull | NeverNull | MaybeNull
  datatype Zeroness = AnyZero | AlwaysZero | NeverZero | MaybeZero
  datatype ReturnOwnership = AnyOwner | ReturnsOwned | ReturnsBorrowed
  datatype Effect = Opaque | ReadsOnly | Frees | Stores
  datatype Access = AnyAccess | NoAccess | Reads | Writes | ReadsWrites
  datatype Ownership = AnyOwnership | Borrowed | Consumed | Transferred
  datatype Precondition = NoPrecondition | NonNullCrash | NonNullRejected
  datatype Postcondition = AnyPostcondition | PostNull | PostNonNull
  datatype AllocatorSize = AnySize | NoSize | Sink

  /** The fields a call may write; an unknown set may carry names left over from before. */
  datatype FieldSet = FieldSet(known: bool, fields: set<string>)

  /** Parameter indices are -1 when there is no claim. */
  datatype Summary = Summary(
    nullness: Nullness,
    zeroness: Zeroness,
    ownership: ReturnOwnership,
    zeroFromParam: int,
    nullFromParam: int,
    returnAliasParam: int,
    nullCondParam: int,
    nullCondRange: Interval,
    params: seq<Effect>,
    accesses: seq<Access>,
    ownerships: seq<Ownership>,
    fieldWrites: seq<FieldSet>,
    preconditions: seq<Precondition>,
    postconditions: seq<Postcondition>,
    allocatorSizes: seq<AllocatorSize>)
  {
    predicate HasNullCondition() {
      nullCondParam >= 0
    }

    function ParamEffect(i: nat): Effect {
      At(params, i, Opaque)
    }

    function ParamAccess(i: nat): Access {
      At(accesses, i, AnyAccess)
    }

    function ExactFieldWrites(i: nat): Option<set<string>> {
      if i >= |fieldWrites| || !fieldWrites[i].known then None else Some(fieldWrites[i].fields)
    }

    /** Without an ownership column the older effect column answers. */
    function ParamOwnership(i: nat): Ownership {
      if i < |ownerships| then ownerships[i] else ImpliedOwnership(ParamEffect(i))
    }

    function ParamPrecondition(i: nat): Precondition {
      At(preconditions, i, NoPrecondition)
    }

    function ParamPostcondition(i: nat): Postcondition {
      At(postconditions, i, AnyPostcondition)
    }

    function ParamAllocatorSize(i: nat): AllocatorSize {
      At(allocatorSizes, i, AnySize)
    }
  }

  /** What the older effect column says about ownership. */
  function ImpliedOwnership(e: Effect): Ownership {
    match e
    case ReadsOnly => Borrowed
    case Frees => Consumed
    case Stores => Transferred
    case Opaque => AnyOwnership
  }

  function At<T>(s: seq<T>, i: nat, fallback: T): T {
    if i < |s| then s[i] else fallback
  }

  /** Summaries of functions with n parameters, every axis filled and every claim on its defined side. */
  predicate WellFormed(s: Summary, n: nat) {
    && |s.params| == |s.accesses| == |s.ownerships| == |s.fieldWrites| == n
    && |s.preconditions| == |s.postconditions| == |s.allocatorSizes| == n
    && (s.nullCondParam >= 0 ==> s.nullness == MaybeNull)
    && (s.zeroFromParam >= 0 ==> s.zeroness == AnyZero)
    && (s.nullFromParam >= 0 ==> s.nullness == AnyNull)
  }

  predicate SameParamAnswers(a: Summary, b: Summary, i: nat) {
    && a.ParamEffect(i) == b.ParamEffect(i)
    && a.ParamAccess(i) == b.ParamAccess(i)
    && a.ExactFieldWrites(i) == b.ExactFieldWrites(i)
    && a.ParamOwnership(i) == b.ParamOwnership(i)
    && a.ParamPrecondition(i) == b.ParamPrecondition(i)
    && a.ParamPostcondition(i) == b.ParamPostcondition(i)
    && a.ParamAllocatorSize(i) == b.ParamAllocatorSize(i)
  }

  predicate SameParamClaim(p: int, q: int) {
    p == q || (p < 0 && q < 0)
  }

  predicate SameReturnAnswers(a: Summary, b: Summary) {
    && a.nullness == b.nullness && a.zeroness == b.zeroness && a.ownership == b.ownership
    && SameParamClaim(a.zeroFromParam, b.zeroFromParam)
    && SameParamClaim(a.nullFromParam, b.nullFromParam)
    && SameParamClaim(a.returnAliasParam, b.returnAliasParam)
    && SameParamClaim(a.nullCondParam, b.nullCondParam)
    && (a.HasNullCondition() ==> a.nullCondRange == b.nullCondRange)
  }

  /** Every accessor answers the same. */
  ghost predicate SameAnswers(a: Summary, b: Summary) {
    SameReturnAnswers(a, b) && forall i: nat :: SameParamAnswers(a, b, i)
  }
}
