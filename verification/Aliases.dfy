/** Local copies of pointer parameters: the alias closure of src/engine/FunctionSummary.cpp. */
module Aliases {

  type ParamId = nat
  type LocalId = nat

  datatype Var = Param(p: ParamId) | Local(l: LocalId)

  /** `to = from;` for a local. */
  datatype Edge = Edge(from: Var, to: LocalId)

  /** The copies a body makes, and the locals fed from anything else or whose address is taken. */
  datatype Collected = Collected(edges: seq<Edge>, dirty: set<LocalId>)

  function Targets(edges: seq<Edge>): set<LocalId> {
    set e | e in edges :: e.to
  }

  // --- The two closures, as the least closed sets ---

  predicate TaintClosed(c: Collected, t: set<LocalId>) {
    c.dirty <= t && forall e :: e in c.edges && e.from.Local? && e.from.l in t ==> e.to in t
  }

  /** Copies of dirty locals, and nothing else. */
  ghost function Tainted(c: Collected): set<LocalId> {
    set x | x in c.dirty + Targets(c.edges) && forall t :: TaintClosed(c, t) ==> x in t
  }

  predicate Flows(e: Edge, p: ParamId, r: set<LocalId>) {
    match e.from
    case Param(q) => q == p
    case Local(l) => l in r
  }

  predicate ReachClosed(c: Collected, t: set<LocalId>, p: ParamId, r: set<LocalId>) {
    forall e :: e in c.edges && Flows(e, p, r) && e.to !in t ==> e.to in r
  }

  /** The locals a parameter's value gets to without passing through one of t. */
  ghost function Reached(c: Collected, t: set<LocalId>, p: ParamId): set<LocalId> {
    set x | x in Targets(c.edges) && forall r :: ReachClosed(c, t, p, r) ==> x in r
  }

  lemma TaintedClosed(c: Collected)
    ensures TaintClosed(c, Tainted(c))
  {
    forall e | e in c.edges && e.from.Local? && e.from.l in Tainted(c)
      ensures e.to in Tainted(c)
    {
      assert e.to in Targets(c.edges);
    }
  }

  lemma ReachedClosed(c: Collected, t: set<LocalId>, p: ParamId)
    ensures ReachClosed(c, t, p, Reached(c, t, p))
  {
    forall e | e in c.edges && Flows(e, p, Reached(c, t, p)) && e.to !in t
      ensures e.to in Reached(c, t, p)
    {
      assert e.to in Targets(c.edges);
      forall r | ReachClosed(c, t, p, r)
        ensures e.to in r
      {
        assert Flows(e, p, r);
      }
    }
  }

  lemma ReachedAvoids(c: Collected, t: set<LocalId>, p: ParamId)
    ensures Reached(c, t, p) !! t
  {
    var r := Targets(c.edges) - t;
    assert ReachClosed(c, t, p, r) by {
      forall e | e in c.edges && e.to !in t
        ensures e.to in r
      {
      }
    }
  }

  // --- The classification ---

  datatype AliasInfo = AliasInfo(cleanAlias: map<LocalId, ParamId>, family: map<ParamId, set<Var>>, taintedReach: set<ParamId>)

  /** p's value gets to l along clean locals. */
  ghost predicate Feeds(c: Collected, p: ParamId, l: LocalId) {
    l in Reached(c, Tainted(c), p)
  }

  ghost predicate OnlyFeeds(c: Collected, carriers: set<ParamId>, p: ParamId, l: LocalId) {
    p in carriers && Feeds(c, p, l) && forall q :: q in carriers && Feeds(c, q, l) ==> q == p
  }

  ghost predicate SpillsIntoTainted(c: Collected, p: ParamId) {
    exists e :: e in c.edges && Flows(e, p, Reached(c, Tainted(c), p)) && e.to in Tainted(c)
  }

  ghost predicate SharesLocal(c: Collected, carriers: set<ParamId>, p: ParamId) {
    exists l, q :: q in carriers && q != p && Feeds(c, p, l) && Feeds(c, q, l)
  }

  /** Clean aliases have exactly one source; a parameter that spills or shares is reported. */
  ghost predicate Classifies(c: Collected, carriers: set<ParamId>, info: AliasInfo) {
    && (forall p, l {:trigger OnlyFeeds(c, carriers, p, l)} ::
          (l in info.cleanAlias && info.cleanAlias[l] == p) <==> OnlyFeeds(c, carriers, p, l))
    && (forall p :: p in info.taintedReach <==> p in carriers && (SpillsIntoTainted(c, p) || SharesLocal(c, carriers, p)))
    && info.family.Keys == carriers
    && (forall p, v {:trigger v in info.family[p]} :: p in carriers ==>
          (v in info.family[p] <==> v == Param(p) || (v.Local? && OnlyFeeds(c, carriers, p, v.l))))
  }

  // --- What executions do ---

  /** A local starts undefined; Entry is the value a parameter was called with. */
  datatype Value = Undefined | Entry(p: ParamId) | Other(n: nat)

  type State = map<LocalId, Value>

  /** One collected copy, or any value put into a dirty local. */
  datatype Action = Copy(e: Edge) | Dirt(l: LocalId, v: Value)

  function ValueOf(s: State, v: Var): Value {
    match v
    case Param(p) => Entry(p)
    case Local(l) => if l in s then s[l] else Undefined
  }

  function Apply(s: State, a: Action): State {
    match a
    case Copy(e) => s[e.to := ValueOf(s, e.from)]
    case Dirt(l, v) => s[l := v]
  }

  function ApplyAll(s: State, actions: seq<Action>): State
    decreases |actions|
  {
    if actions == [] then s else ApplyAll(Apply(s, actions[0]), actions[1..])
  }

  /** The actions of the body, in any order and number; copied parameters are pointers and keep their entry value. */
  predicate Allowed(c: Collected, carriers: set<ParamId>, a: Action) {
    match a
    case Copy(e) => e in c.edges && (e.from.Param? ==> e.from.p in carriers)
    case Dirt(l, _) => l in c.dirty
  }

  predicate AllAllowed(c: Collected, carriers: set<ParamId>, actions: seq<Action>) {
    forall i :: 0 <= i < |actions| ==> Allowed(c, carriers, actions[i])
  }

  /** Untainted locals hold nothing, or the entry value of a parameter that feeds them. */
  ghost predicate CleanLocals(c: Collected, carriers: set<ParamId>, s: State) {
    forall l :: l in s && l !in Tainted(c) ==>
      s[l] == Undefined || (s[l].Entry? && s[l].p in carriers && Feeds(c, s[l].p, l))
  }

  lemma ActionKeepsClean(c: Collected, carriers: set<ParamId>, s: State, a: Action)
    requires CleanLocals(c, carriers, s) && Allowed(c, carriers, a)
    ensures CleanLocals(c, carriers, Apply(s, a))
  {
    TaintedClosed(c);
    var t := Tainted(c);
    match a
    case Dirt(l, _) => assert l in t;
    case Copy(e) =>
      if e.to !in t {
        var v := ValueOf(s, e.from);
        if v.Entry? {
          ReachedClosed(c, t, v.p);
          assert Flows(e, v.p, Reached(c, t, v.p));
        }
      }
  }

  lemma {:induction false} RunKeepsClean(c: Collected, carriers: set<ParamId>, s: State, actions: seq<Action>)
    requires CleanLocals(c, carriers, s) && AllAllowed(c, carriers, actions)
    ensures CleanLocals(c, carriers, ApplyAll(s, actions))
    decreases |actions|
  {
    if actions != [] {
      ActionKeepsClean(c, carriers, s, actions[0]);
      RunKeepsClean(c, carriers, Apply(s, actions[0]), actions[1..]);
    }
  }

  /**
   Under any sequence of the collected copies, in any order and with anything written to dirty
   locals, a clean alias only ever holds its undefined start value or the entry value of its
   one parameter.
   */
  lemma CleanAliasHoldsItsParameter(c: Collected, carriers: set<ParamId>, info: AliasInfo, actions: seq<Action>, l: LocalId)
    requires Classifies(c, carriers, info) && AllAllowed(c, carriers, actions) && l in info.cleanAlias
    ensures ValueOf(ApplyAll(map[], actions), Local(l)) == Undefined
         || ValueOf(ApplyAll(map[], actions), Local(l)) == Entry(info.cleanAlias[l])
  {
    var p := info.cleanAlias[l];
    assert OnlyFeeds(c, carriers, p, l);
    ReachedAvoids(c, Tainted(c), p);
    RunKeepsClean(c, carriers, map[], actions);
  }

  /** p's value, when p neither spills into a tainted local nor shares one, stays in its family. */
  ghost predicate Contained(c: Collected, p: ParamId, s: State) {
    forall l :: l in s && s[l] == Entry(p) ==> Feeds(c, p, l)
  }

  lemma ActionKeepsContained(c: Collected, p: ParamId, s: State, a: Action)
    requires Contained(c, p, s) && !SpillsIntoTainted(c, p)
    requires match a case Copy(e) => e in c.edges case Dirt(_, v) => v != Entry(p)
    ensures Contained(c, p, Apply(s, a))
  {
    if a.Copy? && ValueOf(s, a.e.from) == Entry(p) {
      ReachedClosed(c, Tainted(c), p);
      assert Flows(a.e, p, Reached(c, Tainted(c), p));
    }
  }

  lemma {:induction false} RunKeepsContained(c: Collected, p: ParamId, s: State, actions: seq<Action>)
    requires Contained(c, p, s) && !SpillsIntoTainted(c, p)
    requires forall i :: 0 <= i < |actions| ==> match actions[i] case Copy(e) => e in c.edges case Dirt(_, v) => v != Entry(p)
    ensures Contained(c, p, ApplyAll(s, actions))
    decreases |actions|
  {
    if actions != [] {
      ActionKeepsContained(c, p, s, actions[0]);
      RunKeepsContained(c, p, Apply(s, actions[0]), actions[1..]);
    }
  }

  /** Every local that ever holds the entry value of an unreported parameter is one of its clean aliases. */
  lemma UnreportedParameterStaysInFamily(
    c: Collected, carriers: set<ParamId>, info: AliasInfo, p: ParamId, actions: seq<Action>, l: LocalId)
    requires Classifies(c, carriers, info) && p in carriers && p !in info.taintedReach
    requires forall i :: 0 <= i < |actions| ==> match actions[i] case Copy(e) => e in c.edges case Dirt(_, v) => v != Entry(p)
    requires ValueOf(ApplyAll(map[], actions), Local(l)) == Entry(p)
    ensures l in info.cleanAlias && info.cleanAlias[l] == p && Local(l) in info.family[p]
  {
    RunKeepsContained(c, p, map[], actions);
    assert OnlyFeeds(c, carriers, p, l) by {
      forall q | q in carriers && Feeds(c, q, l)
        ensures q == p
      {
        if q != p {
          assert SharesLocal(c, carriers, p);
        }
      }
    }
  }

  // --- Exactly when an alias is clean ---

  /** Parameters some local is copied from, pointers or not. */
  function Copied(c: Collected): set<ParamId> {
    set e | e in c.edges && e.from.Param? :: e.from.p
  }

  /** Whatever is run, l holds nothing or p's entry value. */
  ghost predicate HoldsOnly(c: Collected, p: ParamId, l: LocalId) {
    forall actions :: AllAllowed(c, Copied(c), actions) ==>
      var v := ValueOf(ApplyAll(map[], actions), Local(l)); v == Undefined || v == Entry(p)
  }

  lemma {:induction false} ApplyAllAppend(s: State, actions: seq<Action>, a: Action)
    ensures ApplyAll(s, actions + [a]) == Apply(ApplyAll(s, actions), a)
    decreases |actions|
  {
    if actions == [] {
      assert [] + [a] == [a] && [a][1..] == [];
    } else {
      assert (actions + [a])[1..] == actions[1..] + [a];
      ApplyAllAppend(Apply(s, actions[0]), actions[1..], a);
    }
  }

  /** Some sequence of collected copies brings q's entry value into l. */
  ghost predicate CanCarry(c: Collected, q: ParamId, l: LocalId) {
    exists actions :: AllAllowed(c, Copied(c), actions) && ValueOf(ApplyAll(map[], actions), Local(l)) == Entry(q)
  }

  lemma EdgeCarries(c: Collected, q: ParamId, e: Edge)
    requires e in c.edges && (match e.from case Param(p) => p == q case Local(l) => CanCarry(c, q, l))
    ensures CanCarry(c, q, e.to)
  {
    var before: seq<Action> := [];
    if e.from.Local? {
      before :| AllAllowed(c, Copied(c), before) && ValueOf(ApplyAll(map[], before), e.from) == Entry(q);
    }
    var actions := before + [Copy(e)];
    ApplyAllAppend(map[], before, Copy(e));
    assert e.from.Param? ==> e.from.p in Copied(c);
    assert AllAllowed(c, Copied(c), actions);
    assert ValueOf(ApplyAll(map[], actions), Local(e.to)) == Entry(q);
  }

  /** Whatever a parameter feeds, some sequence of copies really brings its value to. */
  lemma FedIsCarried(c: Collected, q: ParamId, l: LocalId)
    requires Feeds(c, q, l)
    ensures CanCarry(c, q, l)
  {
    hide CanCarry;
    var r := set x | x in Targets(c.edges) && CanCarry(c, q, x);
    assert ReachClosed(c, Tainted(c), q, r) by {
      forall e | e in c.edges && Flows(e, q, r) && e.to !in Tainted(c)
        ensures e.to in r
      {
        EdgeCarries(c, q, e);
        assert e.to in Targets(c.edges);
      }
    }
  }

  /**
   A clean alias holds only its parameter's value exactly when no other copied parameter feeds
   it. Pointers never do; a parameter that is no pointer is not followed and may.
   */
  lemma CleanAliasExact(c: Collected, carriers: set<ParamId>, info: AliasInfo, l: LocalId)
    requires Classifies(c, carriers, info) && l in info.cleanAlias
    ensures HoldsOnly(c, info.cleanAlias[l], l) <==>
              forall q :: q in Copied(c) && Feeds(c, q, l) ==> q == info.cleanAlias[l]
  {
    hide Reached, Tainted, Copied, HoldsOnly;
    var p := info.cleanAlias[l];
    assert OnlyFeeds(c, carriers, p, l);
    if q :| q in Copied(c) && Feeds(c, q, l) && q != p {
      OtherFeeds(c, p, q, l);
    } else {
      NoOtherFeeds(c, p, l);
    }
  }

  lemma OtherFeeds(c: Collected, p: ParamId, q: ParamId, l: LocalId)
    requires Feeds(c, q, l) && q != p
    ensures !HoldsOnly(c, p, l)
  {
    hide Feeds, AllAllowed;
    FedIsCarried(c, q, l);
  }

  lemma NoOtherFeeds(c: Collected, p: ParamId, l: LocalId)
    requires Feeds(c, p, l) && forall q :: q in Copied(c) && Feeds(c, q, l) ==> q == p
    ensures HoldsOnly(c, p, l)
  {
    ReachedAvoids(c, Tainted(c), p);
    hide Reached, Tainted, Copied, AllAllowed;
    forall actions | AllAllowed(c, Copied(c), actions)
      ensures var v := ValueOf(ApplyAll(map[], actions), Local(l)); v == Undefined || v == Entry(p)
    {
      RunKeepsClean(c, Copied(c), map[], actions);
    }
  }
}
