/** Guarded disjuncts over whole runs: the lifecycle of facts, and the engine run with them. */
module GuardedAnalysis {
  import opened Int64
  import opened Ast
  import opened PathFacts
  import opened Guarded
  import opened GuardedRefine
  import D = Dataflow
  import DS = DataflowSoundness
  import IA = IntervalAnalysis

  // --- Whole-state refinement ---

  lemma {:induction false} KeptCovers<K(!new), V(!new), X(!new)>(
    rd: Reading<K, V, X>, h: Hooks<K, V>, s: State<K, V>, cond: Expr, isTrue: bool, x: X)
    requires HooksSound(rd, h) && Covered(rd, s, x) && WellTyped(rd.env(x)) && Goes(rd.stale, cond, rd.env(x), isTrue)
    ensures Covered(rd, Kept(h, s, cond, isTrue), x)
  {
    hide HooksSound, Means, WellTyped, Goes, RefineDisjunct;
    if s == [] {
      EmptyCoversNothing(rd, s, x);
    } else {
      var d, rest := RefineDisjunct(h, s[0], cond, isTrue), Kept(h, s[1..], cond, isTrue);
      assert s == [s[0]] + s[1..];
      CoveredConcat(rd, [s[0]], s[1..], x);
      CoveredOne(rd, s[0], x);
      CoveredConcat(rd, if d.Some? then [d.value] else [], rest, x);
      if Means(rd, s[0], x) {
        RefineDisjunctSound(rd, h, s[0], cond, isTrue, x);
        CoveredOne(rd, d.value, x);
      } else {
        KeptCovers(rd, h, s[1..], cond, isTrue, x);
      }
    }
  }

  ghost predicate KeepsKeys<K(!new), V(!new)>(h: Hooks<K, V>) {
    forall d, e, wanted {:trigger h.apply(d, e, wanted)} :: h.apply(d, e, wanted).Keys == d.vars.Keys
  }

  /** What the refined disjunct records on top of the given one. */
  ghost predicate Extends<K, V>(d: Guarded<K, V>, r: Guarded<K, V>) {
    r.vars.Keys == d.vars.Keys && forall k :: k in d.facts ==> k in r.facts && r.facts[k] == d.facts[k]
  }

  lemma ApplyLeafExtends<K(!new), V(!new)>(h: Hooks<K, V>, d: Guarded<K, V>, leaf: Expr, isTrue: bool)
    requires KeepsKeys(h)
    ensures ApplyLeaf(h, d, leaf, isTrue).Some? ==> Extends(d, ApplyLeaf(h, d, leaf, isTrue).value)
  {
    hide ConditionFact, UnsignedStrictUpperBoundNonzero;
  }

  lemma ExtendsTransitive<K, V>(a: Guarded<K, V>, b: Guarded<K, V>, c: Guarded<K, V>)
    requires Extends(a, b) && Extends(b, c)
    ensures Extends(a, c)
  {
  }

  lemma ExtendsSelf<K, V>(d: Guarded<K, V>)
    ensures Extends(d, d)
  {
  }

  /** Refinement only ever adds facts: no recorded fact is lost or changed. */
  lemma {:induction false} RefineDisjunctExtends<K(!new), V(!new)>(h: Hooks<K, V>, d: Guarded<K, V>, cond: Expr, isTrue: bool)
    requires KeepsKeys(h)
    ensures var r := RefineDisjunct(h, d, cond, isTrue); r.Some? ==> Extends(d, r.value)
    decreases Size(cond)
  {
    hide KeepsKeys, Extends, ApplyLeaf, Core, RefineBoth, RefineEither;
    match Core(cond)
    case Expect(s) => RefineDisjunctExtends(h, d, s, isTrue);
    case Not(s) => RefineDisjunctExtends(h, d, s, !isTrue);
    case Comma(_, r) => RefineDisjunctExtends(h, d, r, isTrue);
    case LAnd(l, r) => BothExtends(h, d, l, r, isTrue); EitherExtends(h, d, l, r, isTrue);
    case LOr(l, r) => BothExtends(h, d, l, r, isTrue); EitherExtends(h, d, l, r, isTrue);
    case leaf => ApplyLeafExtends(h, d, leaf, isTrue);
  }

  lemma {:induction false} BothExtends<K(!new), V(!new)>(h: Hooks<K, V>, d: Guarded<K, V>, l: Expr, r: Expr, value: bool)
    requires KeepsKeys(h)
    ensures var t := RefineBoth(h, d, l, r, value); t.Some? ==> Extends(d, t.value)
    decreases Size(l) + Size(r)
  {
    hide KeepsKeys, Extends, RefineDisjunct;
    RefineDisjunctExtends(h, d, l, value);
    var first := RefineDisjunct(h, d, l, value);
    if first.Some? {
      RefineDisjunctExtends(h, first.value, r, value);
      var second := RefineDisjunct(h, first.value, r, value);
      if second.Some? {
        ExtendsTransitive(d, first.value, second.value);
      }
    }
  }

  lemma {:induction false} EitherExtends<K(!new), V(!new)>(h: Hooks<K, V>, d: Guarded<K, V>, l: Expr, r: Expr, value: bool)
    requires KeepsKeys(h)
    ensures var t := RefineEither(h, d, l, r, value); t.Some? ==> Extends(d, t.value)
    decreases Size(l) + Size(r)
  {
    hide KeepsKeys, Extends, RefineDisjunct, Refutes;
    RefineDisjunctExtends(h, d, l, value);
    RefineDisjunctExtends(h, d, r, value);
    ExtendsSelf(d);
  }

  lemma {:induction false} KeptExtends<K(!new), V(!new)>(h: Hooks<K, V>, s: State<K, V>, cond: Expr, isTrue: bool)
    requires KeepsKeys(h)
    ensures var r := Kept(h, s, cond, isTrue);
            |r| <= |s| && forall i :: 0 <= i < |r| ==> exists j :: 0 <= j < |s| && Extends(s[j], r[i])
  {
    hide KeepsKeys, Extends, RefineDisjunct;
    if s != [] {
      var d, rest := RefineDisjunct(h, s[0], cond, isTrue), Kept(h, s[1..], cond, isTrue);
      RefineDisjunctExtends(h, s[0], cond, isTrue);
      KeptExtends(h, s[1..], cond, isTrue);
      var r := Kept(h, s, cond, isTrue);
      var n := |r| - |rest|;
      forall i | 0 <= i < |r|
        ensures exists j :: 0 <= j < |s| && Extends(s[j], r[i])
      {
        if i >= n {
          assert r[i] == rest[i - n];
          var j :| 0 <= j < |s[1..]| && Extends(s[1..][j], rest[i - n]);
          assert Extends(s[j + 1], r[i]);
        } else {
          assert r[0] == d.value && Extends(s[0], r[0]);
        }
      }
    }
  }

  lemma KeptTracks<K(!new), V(!new)>(h: Hooks<K, V>, s: State<K, V>, cond: Expr, isTrue: bool, keys: set<K>)
    requires KeepsKeys(h) && Tracks(s, keys)
    ensures Tracks(Kept(h, s, cond, isTrue), keys)
  {
    KeptExtends(h, s, cond, isTrue);
  }

  /** No disjunct covering a state that takes the edge is lost, through the final normalisation too. */
  lemma RefinedCovers<K(!new), V(!new), X(!new)>(
    rd: Reading<K, V, X>, ops: Ops<K, V>, h: Hooks<K, V>, s: State<K, V>, cond: Expr, isTrue: bool, keys: set<K>, x: X)
    requires Ordered(ops) && OpsSound(rd, ops) && HooksSound(rd, h) && Tracks(s, keys)
    ensures Tracks(Refined(ops, h, s, cond, isTrue), keys)
    ensures Covered(rd, s, x) && WellTyped(rd.env(x)) && Goes(rd.stale, cond, rd.env(x), isTrue) ==>
              Covered(rd, Refined(ops, h, s, cond, isTrue), x)
  {
    HooksKeepKeys(rd, h);
    hide HooksSound, KeepsKeys, OpsSound, Ordered, Means, Covered, Normalize, Kept, Goes, WellTyped;
    KeptTracks(h, s, cond, isTrue, keys);
    NormalizeCovers(rd, ops, Kept(h, s, cond, isTrue), keys, x);
    if Covered(rd, s, x) && WellTyped(rd.env(x)) && Goes(rd.stale, cond, rd.env(x), isTrue) {
      KeptCovers(rd, h, s, cond, isTrue, x);
    }
  }

  lemma HooksKeepKeys<K(!new), V(!new), X(!new)>(rd: Reading<K, V, X>, h: Hooks<K, V>)
    requires HooksSound(rd, h)
    ensures KeepsKeys(h)
  {
  }

  // --- Assignments ---

  function Erase(facts: Facts, target: Decl): Facts {
    map k | k in facts && k.decl != target :: facts[k]
  }

  /** The facts about the target are erased; a literal's equality is stamped in their place. */
  function Restamped(facts: Facts, target: Decl, stamp: Option<int64>): Facts {
    var erased := Erase(facts, target);
    if stamp.Some? then erased[FactKey(target, KeyEQ, stamp.value) := true] else erased
  }

  function RestampAll<K, V>(s: State<K, V>, target: Decl, stamp: Option<int64>): (r: State<K, V>)
    ensures |r| == |s| && forall i :: 0 <= i < |s| ==> r[i] == Guarded(Restamped(s[i].facts, target, stamp), s[i].vars)
  {
    if s == [] then [] else [Guarded(Restamped(s[0].facts, target, stamp), s[0].vars)] + RestampAll(s[1..], target, stamp)
  }

  predicate Mentions<K, V>(s: State<K, V>, target: Decl) {
    exists i, k :: 0 <= i < |s| && k in s[i].facts && k.decl == target
  }

  function StampOf(stmt: Stmt, stampable: set<Decl>): Option<int64> {
    if AssignedDecl(stmt).Some? && AssignedDecl(stmt).value in stampable then AssignedIntLiteral(stmt) else None
  }

  /** applyStmtFacts. */
  function ApplyStmt<K, V(==)>(ops: Ops<K, V>, s: State<K, V>, stmt: Stmt, stampable: set<Decl>): State<K, V> {
    match AssignedDecl(stmt)
    case None => s
    case Some(target) =>
      var stamp := StampOf(stmt, stampable);
      if Mentions(s, target) || (stamp.Some? && s != []) then Normalize(ops, RestampAll(s, target, stamp)) else s
  }

  /** A stamp records the value the target is really given. */
  predicate StampTrue(stmt: Stmt, stampable: set<Decl>) {
    var stamp, e := StampOf(stmt, stampable), AssignedValue(stmt);
    stamp.Some? && e.Some? ==> !HasOtherCast(e.value) && LiteralMeaning(e.value) == Some(stamp.value as int)
  }

  /** What a statement may write besides the target whose facts are erased. */
  function Rewritten(stmt: Stmt): set<Decl> {
    match stmt
    case Call(_, _, refs, _) => refs
    case DeclStmt(decls) => if AssignedDecl(stmt).Some? then {} else set i | i in decls :: i.decl
    case _ => {}
  }

  /** The fact has its value whatever the variable holds. */
  ghost predicate Unfalsifiable(k: FactKey, value: bool) {
    forall v :: Holdable(k.decl, v) ==> Compared(k.rel, v, k.literal as int) == value
  }

  /** No recorded fact is about a variable the statement writes and no erasure covers. */
  ghost predicate FactsUntouched(stmt: Stmt, unkeyable: set<Decl>, facts: Facts) {
    forall k :: k in facts && k.decl in Rewritten(stmt) && k.decl !in unkeyable ==> Unfalsifiable(k, facts[k])
  }

  /** Facts true before the statement are true after it, whatever it does. */
  ghost predicate FactsPersist(stmt: Stmt, unkeyable: set<Decl>, facts: Facts) {
    forall env: Store, env': Store ::
      FactsHold(facts, unkeyable, env) && Step(stmt, env, env') ==> FactsHold(facts, unkeyable, env')
  }

  /**
   A call keeps facts true exactly when none of them is about a variable it takes by non-const
   reference: only `&x` makes a variable unkeyable, and calls erase nothing. The same holds of
   a declaration without initialiser.
   */
  lemma FactsPersistExact(stmt: Stmt, unkeyable: set<Decl>, facts: Facts)
    requires stmt.Call? || (exists x :: stmt == DeclStmt([Init(x, None)]))
    ensures FactsPersist(stmt, unkeyable, facts) <==> FactsUntouched(stmt, unkeyable, facts)
  {
    if k :| k in facts && k.decl in Rewritten(stmt) && k.decl !in unkeyable && !Unfalsifiable(k, facts[k]) {
      var v :| Holdable(k.decl, v) && Compared(k.rel, v, k.literal as int) != facts[k];
      FreeWrite(stmt, k.decl, v);
      var before: Store, after: Store := map[], map[k.decl := v];
      assert FactsHold(facts, unkeyable, before) && Step(stmt, before, after);
      assert !FactHolds(k, facts[k], after);
    } else {
      forall env: Store, env': Store, k |
        FactsHold(facts, unkeyable, env) && Step(stmt, env, env') && k in facts && k.decl !in unkeyable
        ensures FactHolds(k, facts[k], env')
      {
        assert FactHolds(k, facts[k], env);
        if k.decl !in Rewritten(stmt) {
          OthersKept(stmt, env, env', k.decl);
        } else {
          FreeValue(stmt, env, env', k.decl);
        }
      }
    }
  }

  /** Some state after the call can be any value of the variable's type. */
  lemma FreeWrite(stmt: Stmt, d: Decl, v: int)
    requires (stmt.Call? || exists x :: stmt == DeclStmt([Init(x, None)])) && d in Rewritten(stmt) && Holdable(d, v)
    ensures Step(stmt, map[], map[d := v])
  {
    if stmt.DeclStmt? {
      var after: Store := map[d := v];
      assert InitStep(stmt.decls[0], map[], after);
      assert InitSteps(stmt.decls[1..], after, after);
    }
  }

  lemma FreeValue(stmt: Stmt, env: Store, env': Store, d: Decl)
    requires (stmt.Call? || exists x :: stmt == DeclStmt([Init(x, None)])) && d in Rewritten(stmt) && Step(stmt, env, env')
    ensures d in env' ==> Holdable(d, env'[d]) || (d in env && env'[d] == env[d])
  {
    if stmt.DeclStmt? {
      SingleDeclStep(stmt.decls, env, env');
    }
  }

  /** Every fact survives a call exactly when all it takes by reference is unkeyable. */
  lemma AllFactsPersistExact(stmt: Stmt, unkeyable: set<Decl>)
    requires stmt.Call? && forall d :: d in stmt.refArgs ==> d.ty.width > 0
    ensures (forall facts: Facts :: FactsPersist(stmt, unkeyable, facts)) <==> stmt.refArgs <= unkeyable
  {
    hide FactsPersist;
    forall facts: Facts
      ensures FactsPersist(stmt, unkeyable, facts) <==> FactsUntouched(stmt, unkeyable, facts)
    {
      FactsPersistExact(stmt, unkeyable, facts);
    }
    if d :| d in stmt.refArgs && d !in unkeyable {
      Pow2Positive(d.ty.width);
      Pow2Positive(d.ty.width - 1);
      var k := FactKey(d, KeyEQ, 0);
      assert Holdable(d, 0) && !Unfalsifiable(k, false);
      assert !FactsUntouched(stmt, unkeyable, map[k := false]);
    }
  }

  /**
   What a stale fact does: after `x = 1; f(x);` with f storing 0 through its reference, the
   true edge of `!x` is taken, and refinement drops the only disjunct.
   */
  lemma StaleFactDropsLiveEdge<K(!new), V(!new)>(x: Decl, callee: nat, unkeyable: set<Decl>, vars: map<K, V>)
    requires x !in unkeyable && !x.isVolatile && Holdable(x, 0) && Holdable(x, 1)
    ensures var d, f := Guarded(map[FactKey(x, KeyEQ, 1) := true], vars), Call(callee, [VarRef(x)], {x}, false);
            && FactsHold(d.facts, unkeyable, map[x := 1]) && Step(f, map[x := 1], map[x := 0])
            && Goes({}, Not(VarRef(x)), map[x := 0], true)
            && RefineDisjunct(PlainHooks<K, V>(unkeyable), d, Not(VarRef(x)), true).None?
  {
    var k: FactKey := FactKey(x, KeyEQ, 1);
    var d := Guarded(map[k := true], vars);
    var env: Store := map[x := 0];
    assert Evals(VarRef(x), env, 0) && Evals(Not(VarRef(x)), env, 1);
    assert Core(VarRef(x)) == VarRef(x) && Core(Not(VarRef(x))) == Not(VarRef(x));
    assert ConditionFact(VarRef(x), unkeyable) == Some((FactKey(x, KeyEQ, 0), false));
    assert k in d.facts && SettlesOtherwise(k, d.facts[k], FactKey(x, KeyEQ, 0), true);
    assert ApplyFactLeaf(d.facts, VarRef(x), false, unkeyable).None?;
    assert RefineDisjunct(PlainHooks<K, V>(unkeyable), d, VarRef(x), false).None?;
  }

  /** One run's step: stamps are true, calls write to unkeyable variables, and a bare declaration leaves the store as it was. */
  ghost predicate FactStep(stmt: Stmt, unkeyable: set<Decl>, stampable: set<Decl>, env: Store, env': Store) {
    && Step(stmt, env, env') && StampTrue(stmt, stampable)
    && (Rewritten(stmt) <= unkeyable || (stmt.DeclStmt? && env' == env))
  }

  lemma SingleDeclStep(decls: seq<Init>, env: Store, env': Store)
    requires |decls| == 1 && InitSteps(decls, env, env')
    ensures InitStep(decls[0], env, env')
  {
    var mid: Store :| InitStep(decls[0], env, mid) && InitSteps(decls[1..], mid, env');
  }

  lemma {:induction false} UndeclaredKept(decls: seq<Init>, env: Store, env': Store, d: Decl)
    requires InitSteps(decls, env, env') && forall i :: i in decls ==> i.decl != d
    ensures (d in env' <==> d in env) && (d in env ==> env'[d] == env[d])
    decreases |decls|
  {
    if decls != [] {
      var mid: Store :| InitStep(decls[0], env, mid) && InitSteps(decls[1..], mid, env');
      UndeclaredKept(decls[1..], mid, env', d);
    }
  }

  lemma OthersKept(stmt: Stmt, env: Store, env': Store, d: Decl)
    requires Step(stmt, env, env') && AssignedDecl(stmt) != Some(d) && d !in Rewritten(stmt)
    ensures (d in env' <==> d in env) && (d in env ==> env'[d] == env[d])
  {
    if stmt.DeclStmt? {
      if AssignedDecl(stmt).Some? {
        SingleDeclStep(stmt.decls, env, env');
      } else {
        forall i | i in stmt.decls
          ensures i.decl != d
        {
          assert i.decl in Rewritten(stmt);
        }
        UndeclaredKept(stmt.decls, env, env', d);
      }
    }
  }

  lemma StampedValue(stmt: Stmt, stampable: set<Decl>, env: Store, env': Store, d: Decl)
    requires Step(stmt, env, env') && StampTrue(stmt, stampable) && AssignedDecl(stmt) == Some(d) && StampOf(stmt, stampable).Some?
    ensures d in env' && env'[d] == StampOf(stmt, stampable).value as int
  {
    if stmt.DeclStmt? {
      SingleDeclStep(stmt.decls, env, env');
    }
    LiteralMeaningExact(AssignedValue(stmt).value, env, env'[d]);
  }

  /** Erase and stamp: facts true before the statement, and not about what else it writes, become facts true after it. */
  lemma RestampedHold(stmt: Stmt, unkeyable: set<Decl>, stampable: set<Decl>, facts: Facts, env: Store, env': Store)
    requires Step(stmt, env, env') && StampTrue(stmt, stampable) && FactsHold(facts, unkeyable, env)
    requires WellTyped(env) && (FactsUntouched(stmt, unkeyable, facts) || env' == env)
    ensures var target := AssignedDecl(stmt);
            FactsHold(if target.None? then facts else Restamped(facts, target.value, StampOf(stmt, stampable)), unkeyable, env')
  {
    StepKeepsTypes(stmt, env, env');
    hide StampOf, AssignedDecl, Step, StampTrue, Rewritten;
    var target := AssignedDecl(stmt);
    var r := if target.None? then facts else Restamped(facts, target.value, StampOf(stmt, stampable));
    forall k | k in r && k.decl !in unkeyable
      ensures FactHolds(k, r[k], env')
    {
      if target == Some(k.decl) {
        StampedValue(stmt, stampable, env, env', k.decl);
      } else {
        assert FactHolds(k, facts[k], env);
        if k.decl !in Rewritten(stmt) {
          OthersKept(stmt, env, env', k.decl);
        }
      }
    }
  }

  lemma UnmentionedKept<K, V>(s: State<K, V>, target: Decl)
    requires !Mentions(s, target)
    ensures RestampAll(s, target, None) == s
  {
    forall i | 0 <= i < |s|
      ensures RestampAll(s, target, None)[i] == s[i]
    {
      assert Erase(s[i].facts, target) == s[i].facts;
    }
  }

  /**
   When a disjunct's facts were true before an assignment and its values describe the state
   after it, the updated disjuncts cover the state after it.
   */
  lemma ApplyStmtCovers<K(!new), V(!new), X(!new)>(
    rd: Reading<K, V, X>, ops: Ops<K, V>, s: State<K, V>, stmt: Stmt, stampable: set<Decl>, keys: set<K>, i: nat, env: Store, x: X)
    requires Ordered(ops) && OpsSound(rd, ops) && Tracks(s, keys) && i < |s|
    requires WellTyped(env) && FactsHold(s[i].facts, rd.Ignored(), env) && Values(rd, s[i].vars, x)
    requires Step(stmt, env, rd.env(x)) && StampTrue(stmt, stampable)
    requires FactsUntouched(stmt, rd.Ignored(), s[i].facts) || rd.env(x) == env
    ensures Covered(rd, ApplyStmt(ops, s, stmt, stampable), x)
  {
    RestampedHold(stmt, rd.Ignored(), stampable, s[i].facts, env, rd.env(x));
    hide Step, StampTrue, FactsUntouched, Ordered, OpsSound, FactsHold, Values, Normalize, Restamped, StampOf, AssignedDecl, Mentions;
    if AssignedDecl(stmt).Some? {
      var target, stamp := AssignedDecl(stmt).value, StampOf(stmt, stampable);
      var next := RestampAll(s, target, stamp);
      if stamp.None? && !Mentions(s, target) {
        UnmentionedKept(s, target);
      }
      CoveredAt(rd, next, i, x);
      NormalizeCovers(rd, ops, next, keys, x);
    } else {
      CoveredAt(rd, s, i, x);
    }
  }

  lemma ApplyStmtTracks<K(!new), V(!new)>(
    ops: Ops<K, V>, s: State<K, V>, stmt: Stmt, stampable: set<Decl>, keys: set<K>)
    requires Ordered(ops) && KeysMined(ops) && Tracks(s, keys) && |s| <= MAX_DISJUNCTS
    ensures Tracks(ApplyStmt(ops, s, stmt, stampable), keys)
    ensures |ApplyStmt(ops, s, stmt, stampable)| <= MAX_DISJUNCTS
  {
    if AssignedDecl(stmt).Some? {
      var next := RestampAll(s, AssignedDecl(stmt).value, StampOf(stmt, stampable));
      NormalizeTracks(ops, next, keys);
      NormalizeShape(ops, next);
    }
  }

  // --- Facts alone, over whole runs ---

  ghost function FactsReading<K, V>(unkeyable: set<Decl>, stale: set<Decl>): Reading<K, V, Store> {
    Reading(unkeyable, stale, (env: Store) => env, (k: K, v: V, env: Store) => true)
  }

  /** A client of the disjuncts: its operations, its hooks, its own transfer and initial values. */
  datatype Client<!K(==), !V> = Client(
    ops: Ops<K, V>,
    hooks: Hooks<K, V>,
    stampable: set<Decl>,
    update: (Stmt, Guarded<K, V>) -> map<K, V>,
    initial: map<K, V>,
    latticeHeight: nat)

  ghost predicate KeysMined<K(!new), V(!new)>(ops: Ops<K, V>) {
    forall s, w {:trigger ops.mine(s, w)} :: ops.mine(s, w).vars.Keys == w.vars.Keys
  }

  /** The client's own operations keep the tracked variables and never contradict true facts. */
  ghost predicate FactsSafe<K(!new), V(!new)>(c: Client<K, V>, stale: set<Decl>) {
    && Ordered(c.ops)
    && OpsSound(FactsReading<K, V>(c.hooks.unkeyable, stale), c.ops)
    && HooksSound(FactsReading<K, V>(c.hooks.unkeyable, stale), c.hooks)
    && forall stmt, d {:trigger c.update(stmt, d)} :: c.update(stmt, d).Keys == d.vars.Keys
  }

  /** refineGuardedFacts: no hooks beyond the facts. */
  function PlainHooks<K(==), V>(unkeyable: set<Decl>): Hooks<K, V> {
    Hooks(unkeyable, (d: Guarded<K, V>, e: Expr, b: bool) => false, (d: Guarded<K, V>, e: Expr, b: bool) => d.vars, false)
  }

  /** The overloads that take only mergeVal: same-facts values are merged as any others, nothing is mined. */
  function PlainOps<K(==), V>(
    factsLess: (Facts, Facts) -> bool, varsLess: (map<K, V>, map<K, V>) -> bool, merge: (V, V) -> V): Ops<K, V>
  {
    Ops(factsLess, varsLess, merge, (facts: Facts, a: V, b: V) => merge(a, b), (s: State<K, V>, w: Guarded<K, V>) => w)
  }

  /** A client without domain knowledge is safe whatever its value merge is. */
  lemma PlainClientSafe<K(!new), V(!new)>(c: Client<K, V>, stale: set<Decl>)
    requires Ordered(c.ops) && c.hooks == PlainHooks(c.hooks.unkeyable)
    requires c.ops == PlainOps(c.ops.factsLess, c.ops.varsLess, c.ops.merge)
    requires forall stmt, d {:trigger c.update(stmt, d)} :: c.update(stmt, d).Keys == d.vars.Keys
    ensures FactsSafe(c, stale)
  {
    var rd := FactsReading<K, V>(c.hooks.unkeyable, stale);
    assert MergeSound(rd, c.ops) && MeetSound(rd, c.ops);
    assert MineSound(rd, c.ops);
    assert HooksSound(rd, c.hooks) by {
      hide FactsHold, WellTyped, Goes;
      assert forall d: Guarded<K, V>, e, wanted :: c.hooks.apply(d, e, wanted) == d.vars;
      assert forall d: Guarded<K, V>, e, wanted :: !c.hooks.refutes(d, e, wanted);
    }
  }

  function UpdateAll<K, V>(c: Client<K, V>, stmt: Stmt, s: State<K, V>): (r: State<K, V>)
    ensures |r| == |s| && forall i :: 0 <= i < |s| ==> r[i] == s[i].(vars := c.update(stmt, s[i]))
  {
    if s == [] then [] else [s[0].(vars := c.update(stmt, s[0]))] + UpdateAll(c, stmt, s[1..])
  }

  function Transfer<K, V(==)>(c: Client<K, V>, stmt: Stmt, s: State<K, V>): State<K, V> {
    ApplyStmt(c.ops, UpdateAll(c, stmt, s), stmt, c.stampable)
  }

  function EngineHooks<K, V(==)>(c: Client<K, V>, flags: map<Decl, int64>, fatal: Stmt -> bool)
    : D.Analysis<State<K, V>, Stmt, Expr>
  {
    D.Analysis(
      [Guarded(map[], c.initial)],
      (a: State<K, V>, b: State<K, V>) => Merge(c.ops, a, b),
      (stmt: Stmt, s: State<K, V>) => s,
      (stmt: Stmt, s: State<K, V>) => Transfer(c, stmt, s),
      Some((cond: Expr, taken: bool, s: State<K, V>) => Refined(c.ops, c.hooks, s, cond, taken)),
      Some((s: State<K, V>) => Widen(c.ops, s)),
      c.latticeHeight,
      (cond: Expr) => IA.EdgeCondition(cond, false),
      (cond: Expr, taken: bool) => IA.InfeasibleByFlags(flags, cond, taken),
      fatal)
  }

  predicate Bounded<K, V>(s: State<K, V>, keys: set<K>) {
    |s| <= MAX_DISJUNCTS && Tracks(s, keys)
  }

  /** Some disjunct has only true facts. */
  ghost predicate FactsDescribe<K, V>(unkeyable: set<Decl>, stale: set<Decl>, s: State<K, V>, env: Store) {
    WellTyped(env) && Covered(FactsReading<K, V>(unkeyable, stale), s, env)
  }

  ghost function FactsMeaning<K, V>(c: Client<K, V>, stale: set<Decl>, flags: map<Decl, int64>, fatal: Stmt -> bool)
    : DS.Meaning<State<K, V>, Store, Stmt, Expr>
  {
    DS.Meaning(
      (s: State<K, V>) => Bounded(s, c.initial.Keys),
      (s: State<K, V>, env: Store) => FactsDescribe(c.hooks.unkeyable, stale, s, env),
      (stmt: Stmt, env: Store, env': Store) => !fatal(stmt) && FactStep(stmt, c.hooks.unkeyable + stale, c.stampable, env, env'),
      (cond: Expr, taken: bool, env: Store) => Avoids(cond, stale) && IA.TakesBranch(flags, cond, taken, env))
  }

  /** The analysis starts in a state that describes every store. */
  lemma InitialDescribes<K(!new), V(!new)>(c: Client<K, V>, stale: set<Decl>, flags: map<Decl, int64>, fatal: Stmt -> bool, env: Store)
    requires WellTyped(env)
    ensures FactsMeaning(c, stale, flags, fatal).gamma(EngineHooks(c, flags, fatal).initial, env)
  {
    var rd := FactsReading<K, V>(c.hooks.unkeyable, stale);
    assert Means(rd, Guarded(map[], c.initial), env);
    CoveredAt(rd, [Guarded(map[], c.initial)], 0, env);
  }

  lemma MeansIsFactsHold<K, V>(unkeyable: set<Decl>, stale: set<Decl>, d: Guarded<K, V>, env: Store)
    ensures Means(FactsReading<K, V>(unkeyable, stale), d, env) <==> FactsHold(d.facts, unkeyable + stale, env)
  {
  }

  // --- Refinement is reductive on facts ---

  lemma {:induction false} MergeRunsFacts<K(!new), V(!new)>(ops: Ops<K, V>, acc: State<K, V>, s: State<K, V>)
    ensures |MergeRuns(ops, acc, s)| <= |acc| + |s|
    ensures forall d :: d in MergeRuns(ops, acc, s) ==> exists e :: (e in acc || e in s) && e.facts == d.facts
    decreases |s|
  {
    if s != [] {
      var n := |acc|;
      var next := if n > 0 && acc[n - 1].facts == s[0].facts then acc[..n - 1] + [MeetInto(ops, acc[n - 1], s[0])] else acc + [s[0]];
      MergeRunsFacts(ops, next, s[1..]);
      forall d | d in MergeRuns(ops, acc, s)
        ensures exists e :: (e in acc || e in s) && e.facts == d.facts
      {
        var e :| (e in next || e in s[1..]) && e.facts == d.facts;
        if e !in acc && e !in s {
          assert e.facts == s[0].facts && s[0] in s;
        }
      }
    }
  }

  lemma NormalizeFacts<K(!new), V(!new)>(ops: Ops<K, V>, s: State<K, V>)
    requires Ordered(ops) && |s| <= MAX_DISJUNCTS
    ensures forall d :: d in Normalize(ops, s) ==> exists e :: e in s && e.facts == d.facts
  {
    var sorted := Sort(ops, s);
    SortSorts(ops, s);
    SortKeepsElements(ops, s);
    assert |sorted| == |multiset(sorted)| && |s| == |multiset(s)|;
    MergeRunsFacts(ops, [], sorted);
    forall d | d in Normalize(ops, s)
      ensures exists e :: e in s && e.facts == d.facts
    {
      var e :| e in sorted && e.facts == d.facts;
      assert e in s;
    }
  }

  lemma NormalizeTracks<K(!new), V(!new)>(ops: Ops<K, V>, s: State<K, V>, keys: set<K>)
    requires Ordered(ops) && KeysMined(ops) && Tracks(s, keys)
    ensures Tracks(Normalize(ops, s), keys)
  {
    var sorted := Sort(ops, s);
    SortKeepsElements(ops, s);
    forall i | 0 <= i < |sorted|
      ensures sorted[i].vars.Keys == keys
    {
      assert sorted[i] in s;
    }
    hide Sort;
    MergeRunsTracks(ops, [], sorted, keys);
    WidenTracks(ops, MergeRuns(ops, [], sorted), keys);
  }

  lemma {:induction false} MergeRunsTracks<K(!new), V(!new)>(ops: Ops<K, V>, acc: State<K, V>, s: State<K, V>, keys: set<K>)
    requires Tracks(acc, keys) && Tracks(s, keys)
    ensures Tracks(MergeRuns(ops, acc, s), keys)
    decreases |s|
  {
    if s != [] {
      var n := |acc|;
      var next := if n > 0 && acc[n - 1].facts == s[0].facts then acc[..n - 1] + [MeetInto(ops, acc[n - 1], s[0])] else acc + [s[0]];
      MergeRunsTracks(ops, next, s[1..], keys);
    }
  }

  lemma {:induction false} CollapseTracks<K(!new), V(!new)>(ops: Ops<K, V>, acc: Guarded<K, V>, s: State<K, V>, keys: set<K>)
    requires acc.vars.Keys == keys && Tracks(s, keys)
    ensures Collapse(ops, acc, s).vars.Keys == keys
    decreases |s|
  {
    if s != [] {
      CollapseTracks(ops, Guarded(CommonFacts(acc.facts, s[0].facts), Combine(acc.vars, s[0].vars, ops.merge)), s[1..], keys);
    }
  }

  lemma WidenTracks<K(!new), V(!new)>(ops: Ops<K, V>, s: State<K, V>, keys: set<K>)
    requires KeysMined(ops) && Tracks(s, keys)
    ensures Tracks(Widen(ops, s), keys)
  {
    if |s| > 1 {
      CollapseTracks(ops, s[0], s[1..], keys);
    }
  }

  lemma ExtendsFacts<K, V>(d: Guarded<K, V>, r: Guarded<K, V>, unkeyable: set<Decl>, env: Store)
    requires Extends(d, r) && FactsHold(r.facts, unkeyable, env)
    ensures FactsHold(d.facts, unkeyable, env)
  {
    forall k | k in d.facts && k.decl !in unkeyable
      ensures FactHolds(k, d.facts[k], env)
    {
      assert FactHolds(k, r.facts[k], env);
    }
  }

  /** A store with true facts after refining had true facts before: refining adds, merging keeps one side's facts. */
  lemma RefinedReductive<K(!new), V(!new)>(
    ops: Ops<K, V>, h: Hooks<K, V>, stale: set<Decl>, s: State<K, V>, cond: Expr, isTrue: bool, env: Store)
    requires Ordered(ops) && KeepsKeys(h) && |s| <= MAX_DISJUNCTS
    requires Covered(FactsReading<K, V>(h.unkeyable, stale), Refined(ops, h, s, cond, isTrue), env)
    ensures Covered(FactsReading<K, V>(h.unkeyable, stale), s, env)
  {
    hide FactsHold, Normalize, Ordered, KeepsKeys, Extends, Kept;
    var rd := FactsReading<K, V>(h.unkeyable, stale);
    var kept, r := Kept(h, s, cond, isTrue), Refined(ops, h, s, cond, isTrue);
    KeptExtends(h, s, cond, isTrue);
    NormalizeFacts(ops, kept);
    var i :| 0 <= i < |r| && Means(rd, r[i], env);
    MeansIsFactsHold(h.unkeyable, stale, r[i], env);
    var e :| e in kept && e.facts == r[i].facts;
    var n :| 0 <= n < |kept| && kept[n] == e;
    var j :| 0 <= j < |s| && Extends(s[j], kept[n]);
    ExtendsFacts(s[j], kept[n], h.unkeyable + stale, env);
    MeansIsFactsHold(h.unkeyable, stale, s[j], env);
    CoveredAt(rd, s, j, env);
  }

  // --- The engine's laws, and every run ---

  lemma UpdateAllKeepsFacts<K(!new), V(!new)>(c: Client<K, V>, stale: set<Decl>, stmt: Stmt, s: State<K, V>, env: Store)
    requires FactsSafe(c, stale) && Bounded(s, c.initial.Keys)
    ensures var r := UpdateAll(c, stmt, s);
            Bounded(r, c.initial.Keys) && forall i :: 0 <= i < |s| ==> r[i].facts == s[i].facts
  {
  }

  lemma TransferSound<K(!new), V(!new)>(c: Client<K, V>, stale: set<Decl>, stmt: Stmt, s: State<K, V>, env: Store, env': Store)
    requires FactsSafe(c, stale) && Bounded(s, c.initial.Keys)
    ensures Bounded(Transfer(c, stmt, s), c.initial.Keys)
    ensures FactsDescribe(c.hooks.unkeyable, stale, s, env) && FactStep(stmt, c.hooks.unkeyable + stale, c.stampable, env, env') ==>
              FactsDescribe(c.hooks.unkeyable, stale, Transfer(c, stmt, s), env')
  {
    hide FactsHold, ApplyStmt, FactStep, Step, StampTrue, FactsUntouched;
    var rd := FactsReading<K, V>(c.hooks.unkeyable, stale);
    var updated := UpdateAll(c, stmt, s);
    UpdateAllKeepsFacts(c, stale, stmt, s, env);
    SafeParts(c, stale);
    ApplyStmtTracks(c.ops, updated, stmt, c.stampable, c.initial.Keys);
    if FactsDescribe(c.hooks.unkeyable, stale, s, env) && FactStep(stmt, c.hooks.unkeyable + stale, c.stampable, env, env') {
      var i :| 0 <= i < |s| && Means(rd, s[i], env);
      MeansIsFactsHold(c.hooks.unkeyable, stale, s[i], env);
      FactStepUntouched(stmt, c.hooks.unkeyable + stale, c.stampable, env, env', s[i].facts);
      ApplyStmtCovers(rd, c.ops, updated, stmt, c.stampable, c.initial.Keys, i, env, env');
      FactStepTyped(stmt, c.hooks.unkeyable + stale, c.stampable, env, env');
    }
  }

  lemma FactStepUntouched(stmt: Stmt, unkeyable: set<Decl>, stampable: set<Decl>, env: Store, env': Store, facts: Facts)
    requires FactStep(stmt, unkeyable, stampable, env, env')
    ensures Step(stmt, env, env') && StampTrue(stmt, stampable) && (FactsUntouched(stmt, unkeyable, facts) || env' == env)
  {
  }

  lemma FactStepTyped(stmt: Stmt, unkeyable: set<Decl>, stampable: set<Decl>, env: Store, env': Store)
    requires FactStep(stmt, unkeyable, stampable, env, env') && WellTyped(env)
    ensures WellTyped(env')
  {
    StepKeepsTypes(stmt, env, env');
  }

  lemma SafeParts<K(!new), V(!new)>(c: Client<K, V>, stale: set<Decl>)
    requires FactsSafe(c, stale)
    ensures Ordered(c.ops) && KeysMined(c.ops) && KeepsKeys(c.hooks)
    ensures OpsSound(FactsReading<K, V>(c.hooks.unkeyable, stale), c.ops)
    ensures HooksSound(FactsReading<K, V>(c.hooks.unkeyable, stale), c.hooks)
  {
    var rd := FactsReading<K, V>(c.hooks.unkeyable, stale);
    HooksKeepKeys(rd, c.hooks);
  }

  lemma JoinSound<K(!new), V(!new)>(c: Client<K, V>, stale: set<Decl>, a: State<K, V>, b: State<K, V>, env: Store)
    requires FactsSafe(c, stale) && Bounded(a, c.initial.Keys) && Bounded(b, c.initial.Keys)
    ensures Bounded(Merge(c.ops, a, b), c.initial.Keys)
    ensures FactsDescribe(c.hooks.unkeyable, stale, a, env) || FactsDescribe(c.hooks.unkeyable, stale, b, env) ==>
              FactsDescribe(c.hooks.unkeyable, stale, Merge(c.ops, a, b), env)
  {
    hide Covered;
    SafeParts(c, stale);
    NormalizeShape(c.ops, a + b);
    MergeCovers(FactsReading<K, V>(c.hooks.unkeyable, stale), c.ops, a, b, c.initial.Keys, env);
  }

  lemma EdgeSound<K(!new), V(!new)>(c: Client<K, V>, stale: set<Decl>, s: State<K, V>, cond: Expr, taken: bool, env: Store)
    requires FactsSafe(c, stale) && Bounded(s, c.initial.Keys)
    ensures Bounded(Refined(c.ops, c.hooks, s, cond, taken), c.initial.Keys)
    ensures FactsDescribe(c.hooks.unkeyable, stale, s, env) && Goes(stale, cond, env, taken) ==>
              FactsDescribe(c.hooks.unkeyable, stale, Refined(c.ops, c.hooks, s, cond, taken), env)
    ensures FactsDescribe(c.hooks.unkeyable, stale, Refined(c.ops, c.hooks, s, cond, taken), env) ==>
              FactsDescribe(c.hooks.unkeyable, stale, s, env)
  {
    hide Covered, Goes;
    var rd := FactsReading<K, V>(c.hooks.unkeyable, stale);
    SafeParts(c, stale);
    NormalizeShape(c.ops, Kept(c.hooks, s, cond, taken));
    RefinedCovers(rd, c.ops, c.hooks, s, cond, taken, c.initial.Keys, env);
    if Covered(rd, Refined(c.ops, c.hooks, s, cond, taken), env) {
      RefinedReductive(c.ops, c.hooks, stale, s, cond, taken, env);
    }
  }

  lemma CollapseSound<K(!new), V(!new)>(c: Client<K, V>, stale: set<Decl>, s: State<K, V>, env: Store)
    requires FactsSafe(c, stale) && Bounded(s, c.initial.Keys)
    ensures Bounded(Widen(c.ops, s), c.initial.Keys)
    ensures FactsDescribe(c.hooks.unkeyable, stale, s, env) ==> FactsDescribe(c.hooks.unkeyable, stale, Widen(c.ops, s), env)
  {
    hide Covered;
    SafeParts(c, stale);
    WidenCovers(FactsReading<K, V>(c.hooks.unkeyable, stale), c.ops, s, c.initial.Keys, env);
  }

  lemma MergeLaws<K(!new), V(!new)>(c: Client<K, V>, stale: set<Decl>, flags: map<Decl, int64>, fatal: Stmt -> bool)
    requires FactsSafe(c, stale)
    ensures var an, m := EngineHooks(c, flags, fatal), FactsMeaning(c, stale, flags, fatal);
            && (forall a, b {:trigger an.merge(a, b)} :: m.ok(a) && m.ok(b) ==> m.ok(an.merge(a, b)))
            && (forall a, b, env {:trigger m.gamma(an.merge(a, b), env)} ::
                  m.ok(a) && m.ok(b) && (m.gamma(a, env) || m.gamma(b, env)) ==> m.gamma(an.merge(a, b), env))
  {
    hide FactsSafe, Bounded, FactsDescribe, Merge;
    forall a: State<K, V>, b: State<K, V> | Bounded(a, c.initial.Keys) && Bounded(b, c.initial.Keys)
      ensures Bounded(Merge(c.ops, a, b), c.initial.Keys)
    {
      JoinSound(c, stale, a, b, map[]);
    }
    forall a: State<K, V>, b: State<K, V>, env: Store |
      && Bounded(a, c.initial.Keys) && Bounded(b, c.initial.Keys)
      && (FactsDescribe(c.hooks.unkeyable, stale, a, env) || FactsDescribe(c.hooks.unkeyable, stale, b, env))
      ensures FactsDescribe(c.hooks.unkeyable, stale, Merge(c.ops, a, b), env)
    {
      JoinSound(c, stale, a, b, env);
    }
  }

  lemma TransferLaws<K(!new), V(!new)>(c: Client<K, V>, stale: set<Decl>, flags: map<Decl, int64>, fatal: Stmt -> bool)
    requires FactsSafe(c, stale)
    ensures var an, m := EngineHooks(c, flags, fatal), FactsMeaning(c, stale, flags, fatal);
            && (forall e, s {:trigger an.transfer(e, s)} :: m.ok(s) ==> m.ok(an.transfer(e, s)))
            && (forall e, s, env, env' {:trigger m.gamma(s, env), m.step(e, env, env')} ::
                  m.ok(s) && m.gamma(s, env) && m.step(e, env, env') ==> m.gamma(an.transfer(e, s), env') && !an.fatal(e))
  {
    hide FactsSafe, Bounded, FactsDescribe, Transfer, FactStep;
    forall e: Stmt, s: State<K, V> | Bounded(s, c.initial.Keys)
      ensures Bounded(Transfer(c, e, s), c.initial.Keys)
    {
      TransferSound(c, stale, e, s, map[], map[]);
    }
    forall e: Stmt, s: State<K, V>, env: Store, env': Store |
      && Bounded(s, c.initial.Keys) && FactsDescribe(c.hooks.unkeyable, stale, s, env)
      && FactStep(e, c.hooks.unkeyable + stale, c.stampable, env, env')
      ensures FactsDescribe(c.hooks.unkeyable, stale, Transfer(c, e, s), env')
    {
      TransferSound(c, stale, e, s, env, env');
    }
  }

  lemma RefineLaws<K(!new), V(!new)>(c: Client<K, V>, stale: set<Decl>, flags: map<Decl, int64>, fatal: Stmt -> bool)
    requires FactsSafe(c, stale)
    ensures DS.RefineSound(EngineHooks(c, flags, fatal).refine.value, FactsMeaning(c, stale, flags, fatal))
  {
    hide FactsSafe, Bounded, FactsDescribe, Refined;
    forall cond: Expr, taken: bool, s: State<K, V> | Bounded(s, c.initial.Keys)
      ensures Bounded(Refined(c.ops, c.hooks, s, cond, taken), c.initial.Keys)
    {
      EdgeSound(c, stale, s, cond, taken, map[]);
    }
    forall cond: Expr, taken: bool, s: State<K, V>, env: Store |
      Bounded(s, c.initial.Keys) && FactsDescribe(c.hooks.unkeyable, stale, s, env) && Avoids(cond, stale) && IA.TakesBranch(flags, cond, taken, env)
      ensures FactsDescribe(c.hooks.unkeyable, stale, Refined(c.ops, c.hooks, s, cond, taken), env)
    {
      EdgeSound(c, stale, s, cond, taken, env);
    }
    forall cond: Expr, taken: bool, s: State<K, V>, env: Store |
      Bounded(s, c.initial.Keys) && FactsDescribe(c.hooks.unkeyable, stale, Refined(c.ops, c.hooks, s, cond, taken), env)
      ensures FactsDescribe(c.hooks.unkeyable, stale, s, env)
    {
      EdgeSound(c, stale, s, cond, taken, env);
    }
  }

  lemma WidenLaws<K(!new), V(!new)>(c: Client<K, V>, stale: set<Decl>, flags: map<Decl, int64>, fatal: Stmt -> bool)
    requires FactsSafe(c, stale)
    ensures DS.WidenSound(EngineHooks(c, flags, fatal).widen.value, FactsMeaning(c, stale, flags, fatal))
  {
    hide FactsSafe, Bounded, FactsDescribe, Widen;
    forall s: State<K, V> | Bounded(s, c.initial.Keys)
      ensures Bounded(Widen(c.ops, s), c.initial.Keys)
    {
      CollapseSound(c, stale, s, map[]);
    }
    forall s: State<K, V>, env: Store | Bounded(s, c.initial.Keys) && FactsDescribe(c.hooks.unkeyable, stale, s, env)
      ensures FactsDescribe(c.hooks.unkeyable, stale, Widen(c.ops, s), env)
    {
      CollapseSound(c, stale, s, env);
    }
  }

  lemma {:induction false} EdgeConditionAvoids(e: Expr, flip: bool, vars: set<Decl>)
    requires Avoids(e, vars)
    ensures Avoids(IA.EdgeCondition(e, flip).0, vars)
  {
    match e
    case Paren(s) => EdgeConditionAvoids(s, flip, vars);
    case ImpCast(_, s) => EdgeConditionAvoids(s, flip, vars);
    case BoolCast(s) => EdgeConditionAvoids(s, flip, vars);
    case SameTypeCast(s) => EdgeConditionAvoids(s, flip, vars);
    case Expect(s) => EdgeConditionAvoids(s, flip, vars);
    case Not(s) => EdgeConditionAvoids(s, !flip, vars);
    case Comma(_, r) => EdgeConditionAvoids(r, flip, vars);
    case _ =>
  }

  lemma BranchLaws<K(!new), V(!new)>(c: Client<K, V>, stale: set<Decl>, flags: map<Decl, int64>, fatal: Stmt -> bool)
    ensures var an, m := EngineHooks(c, flags, fatal), FactsMeaning(c, stale, flags, fatal);
            && (forall cond, taken, env {:trigger an.infeasible(cond, taken), m.takes(cond, taken, env)} ::
                  m.takes(cond, taken, env) ==> !an.infeasible(cond, taken))
            && (forall cond, taken, env {:trigger an.edgeCondition(cond), m.takes(cond, taken, env)} ::
                  m.takes(cond, taken, env) ==>
                    m.takes(an.edgeCondition(cond).0, taken != an.edgeCondition(cond).1, env))
  {
    forall cond: Expr, taken: bool, env: Store | Avoids(cond, stale) && IA.TakesBranch(flags, cond, taken, env)
      ensures !IA.InfeasibleByFlags(flags, cond, taken)
      ensures IA.TakesBranch(flags, IA.EdgeCondition(cond, false).0, taken != IA.EdgeCondition(cond, false).1, env)
      ensures Avoids(IA.EdgeCondition(cond, false).0, stale)
    {
      IA.FlagPruningSound(flags, cond, taken, env);
      var v :| Evals(cond, env, v) && (v != 0) == taken;
      IA.EdgeConditionSound(cond, false, env, v);
      EdgeConditionAvoids(cond, false, stale);
    }
  }

  /** The disjunct operations satisfy every local law the engine theorem asks for. */
  lemma FactsLocallySound<K(!new), V(!new)>(c: Client<K, V>, stale: set<Decl>, flags: map<Decl, int64>, fatal: Stmt -> bool)
    requires FactsSafe(c, stale)
    ensures DS.LocallySound(EngineHooks(c, flags, fatal), FactsMeaning(c, stale, flags, fatal))
  {
    MergeLaws(c, stale, flags, fatal);
    TransferLaws(c, stale, flags, fatal);
    RefineLaws(c, stale, flags, fatal);
    WidenLaws(c, stale, flags, fatal);
    BranchLaws(c, stale, flags, fatal);
    hide FactsSafe, FactsDescribe, Transfer, Refined, Widen, Merge, FactStep, DS.RefineSound, DS.WidenSound;
  }

  /**
   Over every run of assignments, guards and joins, loops and collapses included, the state
   recorded at a statement holds a disjunct all of whose facts are true there. A statement
   with no disjunct is reached by no run. Keyable variables that calls write through a
   reference are stale: the theorem asks that no branch of the run tests them, and leaves
   facts about them open.
   */
  lemma SomeDisjunctIsTrue<K(!new), V(!new)>(
    cfg: IA.Flow, c: Client<K, V>, stale: set<Decl>, flags: map<Decl, int64>, fatal: Stmt -> bool,
    run: seq<(D.BlockId, Store)>, n: nat, i: nat, at: Store)
    requires FactsSafe(c, stale) && D.Solve(cfg, EngineHooks(c, flags, fatal)).converged
    requires DS.IsRun(cfg, FactsMeaning(c, stale, flags, fatal), EngineHooks(c, flags, fatal).initial, run)
    requires n < |run| && run[n].0 < |cfg.blocks| && i < |cfg.blocks[run[n].0].elems|
    requires DS.Executes(FactsMeaning(c, stale, flags, fatal), cfg.blocks[run[n].0].elems[..i], run[n].1, at)
    requires !fatal(cfg.blocks[run[n].0].elems[i])
    ensures var report := D.Solve(cfg, EngineHooks(c, flags, fatal)).report;
            && (run[n].0, i) in report
            && exists d :: d in report[(run[n].0, i)] && FactsHold(d.facts, c.hooks.unkeyable + stale, at)
  {
    FactsLocallySound(c, stale, flags, fatal);
    DS.ReportDescribesRuns(cfg, EngineHooks(c, flags, fatal), FactsMeaning(c, stale, flags, fatal), run, n, i, at);
    var s := D.Solve(cfg, EngineHooks(c, flags, fatal)).report[(run[n].0, i)];
    var j :| 0 <= j < |s| && Means(FactsReading<K, V>(c.hooks.unkeyable, stale), s[j], at);
    assert s[j] in s;
  }
}
