/** The in-place operations on disjuncts, each proved equal to its function. */
module GuardedState {
  import opened Int64
  import opened Ast
  import opened PathFacts
  import opened Guarded
  import opened GuardedRefine
  import opened GuardedAnalysis

  /** mergeVarMaps. */
  method MergeVarMaps<K, V>(into: map<K, V>, from: map<K, V>, op: (V, V) -> V) returns (r: map<K, V>)
    ensures r == Combine(into, from, op)
  {
    hide Combine;
    r := into;
    var todo := from.Keys;
    ghost var want := Combine(into, from, op);
    CombinedEntries(into, from, op);
    while todo != {}
      invariant todo <= from.Keys
      invariant forall k :: k in r <==> k in into || (k in from && k !in todo)
      invariant forall k :: k in r && k in todo ==> r[k] == into[k]
      invariant forall k :: k in r && k !in todo ==> r[k] == want[k]
      decreases |todo|
    {
      var k :| k in todo;
      todo := todo - {k};
      r := r[k := if k in r then op(r[k], from[k]) else from[k]];
    }
    SameEntries(r, want);
  }

  lemma SameEntries<K, V>(a: map<K, V>, b: map<K, V>)
    requires forall k :: k in a <==> k in b
    requires forall k :: k in a && k in b ==> a[k] == b[k]
    ensures a == b
  {
    assert a.Keys == b.Keys;
  }

  lemma CombinedEntries<K, V>(into: map<K, V>, from: map<K, V>, op: (V, V) -> V)
    ensures var r := Combine(into, from, op);
            && (forall k :: k in r <==> k in into || k in from)
            && (forall k :: k in into && k !in from ==> r[k] == into[k])
            && (forall k :: k in from && k !in into ==> r[k] == from[k])
            && (forall k :: k in into && k in from ==> r[k] == op(into[k], from[k]))
  {
  }

  /** Erases the facts that other does not agree on. */
  method KeepCommon(facts: Facts, other: Facts) returns (r: Facts)
    ensures r == CommonFacts(facts, other)
  {
    r := facts;
    var todo := facts.Keys;
    while todo != {}
      invariant todo <= r.Keys <= facts.Keys
      invariant forall k :: k in facts ==> (k in r <==> k in todo || k in CommonFacts(facts, other))
      invariant forall k :: k in r ==> r[k] == facts[k]
      decreases |todo|
    {
      var k :| k in todo;
      todo := todo - {k};
      if k !in other || other[k] != facts[k] {
        r := r - {k};
      }
    }
  }

  method EraseTarget(facts: Facts, target: Decl) returns (r: Facts, changed: bool)
    ensures r == Erase(facts, target) && (changed <==> exists k :: k in facts && k.decl == target)
  {
    r, changed := facts, false;
    var todo := facts.Keys;
    while todo != {}
      invariant todo <= r.Keys <= facts.Keys
      invariant forall k :: k in facts ==> (k in r <==> k in todo || k.decl != target)
      invariant forall k :: k in r ==> r[k] == facts[k]
      invariant changed <==> exists k :: k in facts && k !in todo && k.decl == target
      decreases |todo|
    {
      var k :| k in todo;
      todo := todo - {k};
      if k.decl == target {
        r := r - {k};
        changed := true;
      }
    }
  }

  /** One disjunct while a condition is walked over it. */
  class Disjunct<K(==), V> {
    var facts: Facts
    var vars: map<K, V>

    constructor (d: Guarded<K, V>)
      ensures Value() == d
    {
      facts, vars := d.facts, d.vars;
    }

    function Value(): Guarded<K, V>
      reads this
    {
      Guarded(facts, vars)
    }

    method Record(key: FactKey, value: bool) returns (kept: bool)
      modifies this`facts
      ensures kept == WithFact(old(facts), key, value).Some?
      ensures kept ==> facts == WithFact(old(facts), key, value).value
    {
      var contradict := ScanFacts(facts, key, value);
      if !contradict {
        facts := facts[key := value];
      }
      kept := !contradict;
    }

    /** applyFactLeaf. */
    method RecordLeaf(leaf: Expr, isTrue: bool, unkeyable: set<Decl>) returns (kept: bool)
      modifies this`facts
      ensures kept == ApplyFactLeaf(old(facts), leaf, isTrue, unkeyable).Some?
      ensures kept ==> facts == ApplyFactLeaf(old(facts), leaf, isTrue, unkeyable).value
    {
      if isTrue {
        var bound := UnsignedStrictUpperBoundNonzero(leaf, unkeyable);
        if bound.Some? {
          kept := Record(bound.value, false);
          if !kept {
            return false;
          }
        }
      }
      var fact := ConditionFact(leaf, unkeyable);
      if fact.None? {
        return true;
      }
      kept := Record(fact.value.0, if isTrue then fact.value.1 else !fact.value.1);
    }

    method ApplyLeafInPlace(h: Hooks<K, V>, leaf: Expr, isTrue: bool) returns (kept: bool)
      modifies this
      ensures kept == ApplyLeaf(h, old(Value()), leaf, isTrue).Some?
      ensures kept ==> Value() == ApplyLeaf(h, old(Value()), leaf, isTrue).value
    {
      if h.leafDrop && Refutes(h, Value(), leaf, isTrue) {
        return false;
      }
      kept := RecordLeaf(leaf, isTrue, h.unkeyable);
      if kept {
        vars := h.apply(Value(), leaf, isTrue);
      }
    }

    /** refineDisjunctCondition. */
    method Refine(h: Hooks<K, V>, cond: Expr, isTrue: bool) returns (kept: bool)
      modifies this
      ensures kept == RefineDisjunct(h, old(Value()), cond, isTrue).Some?
      ensures kept ==> Value() == RefineDisjunct(h, old(Value()), cond, isTrue).value
      decreases Size(cond), 1
    {
      hide ApplyLeaf, Refutes, Core, RefineBoth, RefineEither;
      match Core(cond)
      case Expect(s) => kept := Refine(h, s, isTrue);
      case Not(s) => kept := Refine(h, s, !isTrue);
      case Comma(_, r) => kept := Refine(h, r, isTrue);
      case LAnd(l, r) =>
        if isTrue {
          kept := RefineOperands(h, l, r, true);
        } else {
          kept := Eliminate(h, l, r, false);
        }
      case LOr(l, r) =>
        if isTrue {
          kept := Eliminate(h, l, r, true);
        } else {
          kept := RefineOperands(h, l, r, false);
        }
      case leaf => kept := ApplyLeafInPlace(h, leaf, isTrue);
    }

    method RefineOperands(h: Hooks<K, V>, l: Expr, r: Expr, value: bool) returns (kept: bool)
      modifies this
      ensures kept == RefineBoth(h, old(Value()), l, r, value).Some?
      ensures kept ==> Value() == RefineBoth(h, old(Value()), l, r, value).value
      decreases Size(l) + Size(r), 0
    {
      hide RefineDisjunct;
      kept := Refine(h, l, value);
      if kept {
        kept := Refine(h, r, value);
      }
    }

    /** Disjunction elimination. */
    method Eliminate(h: Hooks<K, V>, l: Expr, r: Expr, value: bool) returns (kept: bool)
      modifies this
      ensures kept == RefineEither(h, old(Value()), l, r, value).Some?
      ensures kept ==> Value() == RefineEither(h, old(Value()), l, r, value).value
      decreases Size(l) + Size(r), 0
    {
      hide RefineDisjunct, Refutes;
      var leftOut, rightOut := Refutes(h, Value(), l, value), Refutes(h, Value(), r, value);
      if leftOut && rightOut {
        kept := false;
      } else if leftOut {
        kept := Refine(h, r, value);
      } else if rightOut {
        kept := Refine(h, l, value);
      } else {
        kept := true;
      }
    }
  }

  class Disjuncts<K(==), V(==)> {
    var state: State<K, V>

    constructor (state: State<K, V>)
      ensures this.state == state
    {
      this.state := state;
    }

    /** widenGuarded and widenGuardedOps. */
    method WidenState(ops: Ops<K, V>)
      modifies this
      ensures state == Widen(ops, old(state))
    {
      if |state| <= 1 {
        return;
      }
      var facts, vars := state[0].facts, state[0].vars;
      for i := 1 to |state|
        invariant state == old(state)
        invariant Collapse(ops, Guarded(facts, vars), state[i..]) == Collapse(ops, state[0], state[1..])
      {
        assert state[i..][0] == state[i] && state[i..][1..] == state[i + 1..];
        facts := KeepCommon(facts, state[i].facts);
        vars := MergeVarMaps(vars, state[i].vars, ops.merge);
      }
      state := [ops.mine(state, Guarded(facts, vars))];
    }

    /** normalizeGuarded and normalizeGuardedOps. */
    method NormalizeState(ops: Ops<K, V>)
      modifies this
      ensures state == Normalize(ops, old(state))
    {
      state := Sort(ops, state);
      ghost var sorted := state;
      var merged := [];
      for i := 0 to |state|
        invariant state == sorted
        invariant MergeRuns(ops, merged, state[i..]) == MergeRuns(ops, [], sorted)
      {
        assert state[i..][0] == state[i] && state[i..][1..] == state[i + 1..];
        if merged != [] && merged[|merged| - 1].facts == state[i].facts {
          var last := merged[|merged| - 1];
          var vars := MergeVarMaps(last.vars, state[i].vars, (a, b) => ops.meet(last.facts, a, b));
          merged := merged[..|merged| - 1] + [last.(vars := vars)];
        } else {
          merged := merged + [state[i]];
        }
      }
      state := merged;
      if |state| > MAX_DISJUNCTS {
        WidenState(ops);
      }
    }

    /** refineGuardedFactsWith and refineGuardedFactsOps. */
    method RefineState(ops: Ops<K, V>, h: Hooks<K, V>, cond: Expr, isTrue: bool)
      modifies this
      ensures state == Refined(ops, h, old(state), cond, isTrue)
    {
      state := KeepRefined(h, state, cond, isTrue);
      NormalizeState(ops);
    }

    /** applyStmtFacts. */
    method ApplyStatement(ops: Ops<K, V>, stmt: Stmt, stampable: set<Decl>)
      modifies this
      ensures state == ApplyStmt(ops, old(state), stmt, stampable)
    {
      hide Normalize, StampOf;
      var decl := AssignedDecl(stmt);
      if decl.None? {
        return;
      }
      var next, changed := RestampDisjuncts(state, decl.value, StampOf(stmt, stampable));
      if changed {
        state := next;
        NormalizeState(ops);
      }
    }
  }

  method RefineOne<K(==), V>(h: Hooks<K, V>, d: Guarded<K, V>, cond: Expr, isTrue: bool) returns (r: Option<Guarded<K, V>>)
    ensures r == RefineDisjunct(h, d, cond, isTrue)
  {
    hide RefineDisjunct;
    var disjunct := new Disjunct(d);
    var stays := disjunct.Refine(h, cond, isTrue);
    r := if stays then Some(disjunct.Value()) else None;
  }

  method KeepRefined<K(==), V>(h: Hooks<K, V>, s: State<K, V>, cond: Expr, isTrue: bool) returns (kept: State<K, V>)
    ensures kept == Kept(h, s, cond, isTrue)
  {
    hide RefineDisjunct, Kept;
    kept := [];
    KeptNone(h, cond, isTrue);
    for i := 0 to |s|
      invariant kept == Kept(h, s[..i], cond, isTrue)
    {
      KeptNext(h, s, i, cond, isTrue);
      var d := RefineOne(h, s[i], cond, isTrue);
      if d.Some? {
        kept := kept + [d.value];
      }
    }
    assert s[..|s|] == s;
  }

  lemma KeptNone<K, V>(h: Hooks<K, V>, cond: Expr, isTrue: bool)
    ensures Kept(h, [], cond, isTrue) == []
  {
  }

  lemma {:induction false} KeptAppend<K, V>(h: Hooks<K, V>, s: State<K, V>, d: Guarded<K, V>, cond: Expr, isTrue: bool)
    ensures var r := RefineDisjunct(h, d, cond, isTrue);
            Kept(h, s + [d], cond, isTrue) == Kept(h, s, cond, isTrue) + if r.Some? then [r.value] else []
  {
    hide RefineDisjunct;
    if s != [] {
      KeptAppend(h, s[1..], d, cond, isTrue);
      assert (s + [d])[1..] == s[1..] + [d];
    } else {
      assert s + [d] == [d];
    }
  }

  lemma KeptNext<K, V>(h: Hooks<K, V>, s: State<K, V>, n: nat, cond: Expr, isTrue: bool)
    requires n < |s|
    ensures var r := RefineDisjunct(h, s[n], cond, isTrue);
            Kept(h, s[..n + 1], cond, isTrue) == Kept(h, s[..n], cond, isTrue) + if r.Some? then [r.value] else []
  {
    hide RefineDisjunct, Kept;
    assert s[..n + 1] == s[..n] + [s[n]];
    KeptAppend(h, s[..n], s[n], cond, isTrue);
  }

  /** Erases and stamps one disjunct. */
  method RestampOne(facts: Facts, target: Decl, stamp: Option<int64>) returns (r: Facts, changed: bool)
    ensures r == Restamped(facts, target, stamp)
    ensures changed <==> stamp.Some? || exists k :: k in facts && k.decl == target
  {
    r, changed := EraseTarget(facts, target);
    if stamp.Some? {
      r := r[FactKey(target, KeyEQ, stamp.value) := true];
      changed := true;
    }
  }

  method RestampDisjuncts<K, V>(s: State<K, V>, target: Decl, stamp: Option<int64>) returns (next: State<K, V>, changed: bool)
    ensures next == RestampAll(s, target, stamp)
    ensures changed <==> Mentions(s, target) || (stamp.Some? && s != [])
  {
    hide Restamped, RestampAll, Mentions;
    next, changed := [], false;
    MentionsNone<K, V>(target);
    for i := 0 to |s|
      invariant next == RestampAll(s[..i], target, stamp)
      invariant changed <==> Mentions(s[..i], target) || (stamp.Some? && i > 0)
    {
      var facts, touched := RestampOne(s[i].facts, target, stamp);
      next := next + [Guarded(facts, s[i].vars)];
      changed := changed || touched;
      MentionsNext(s, i, target);
    }
    assert s[..|s|] == s;
  }

  lemma MentionsNone<K, V>(target: Decl)
    ensures !Mentions<K, V>([], target)
  {
  }

  lemma MentionsNext<K, V>(s: State<K, V>, n: nat, target: Decl)
    requires n < |s|
    ensures Mentions(s[..n + 1], target) <==> Mentions(s[..n], target) || exists k :: k in s[n].facts && k.decl == target
  {
    var t := s[..n + 1];
    assert t[n] == s[n];
    assert forall i :: 0 <= i < n ==> t[i] == s[..n][i];
    forall k | k in s[n].facts && k.decl == target
      ensures Mentions(t, target)
    {
      assert k in t[n].facts;
    }
  }
}
