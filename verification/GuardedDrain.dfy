/**
 Why the guarded disjuncts settle although their transfer is not monotone: facts are recorded,
 erased and flipped from visit to visit, but a widened state is a single disjunct, and joining
 it with anything and widening again only loses facts and raises values.
 */
module GuardedDrain {
  import opened Int64
  import opened Ast
  import opened PathFacts
  import opened Guarded
  import opened GuardedRefine
  import opened GuardedAnalysis
  import opened FiniteSets
  import D = Dataflow
  import Drain
  import W = WideningDrain
  import IA = IntervalAnalysis

  // --- What facts can be recorded about ---

  function LeafKeys(leaf: Expr, unkeyable: set<Decl>): set<FactKey> {
    var bound, fact := UnsignedStrictUpperBoundNonzero(leaf, unkeyable), ConditionFact(leaf, unkeyable);
    (if bound.Some? then {bound.value} else {}) + (if fact.Some? then {fact.value.0} else {})
  }

  /** The keys a condition's leaves may record. */
  function FactKeys(cond: Expr, unkeyable: set<Decl>): set<FactKey>
    decreases Size(cond)
  {
    match Core(cond)
    case Expect(s) => FactKeys(s, unkeyable)
    case Not(s) => FactKeys(s, unkeyable)
    case Comma(_, r) => FactKeys(r, unkeyable)
    case LAnd(l, r) => FactKeys(l, unkeyable) + FactKeys(r, unkeyable)
    case LOr(l, r) => FactKeys(l, unkeyable) + FactKeys(r, unkeyable)
    case leaf => LeafKeys(leaf, unkeyable)
  }

  function StampKeys(stmt: Stmt, stampable: set<Decl>): set<FactKey> {
    var stamp := StampOf(stmt, stampable);
    if stamp.Some? then {FactKey(AssignedDecl(stmt).value, KeyEQ, stamp.value)} else {}
  }

  /** All keys a function body can record facts about. */
  function Universe<K, V>(cfg: IA.Flow, c: Client<K, V>): set<FactKey> {
    (set b: nat, k | 0 <= b < |cfg.blocks| && k in BranchKeys(cfg, c.hooks.unkeyable, b) :: k) +
    (set b: nat, i: nat, k | 0 <= b < |cfg.blocks| && 0 <= i < |cfg.blocks[b].elems| &&
                             k in StampKeys(cfg.blocks[b].elems[i], c.stampable) :: k)
  }

  function BranchKeys(cfg: IA.Flow, unkeyable: set<Decl>, b: nat): set<FactKey>
    requires b < |cfg.blocks|
  {
    var cond := cfg.blocks[b].cond;
    if cond.Some? then FactKeys(IA.EdgeCondition(cond.value, false).0, unkeyable) else {}
  }

  predicate Inside<K, V>(s: State<K, V>, u: set<FactKey>) {
    forall i :: 0 <= i < |s| ==> s[i].facts.Keys <= u
  }

  lemma ApplyLeafInside<K, V>(h: Hooks<K, V>, d: Guarded<K, V>, leaf: Expr, isTrue: bool, u: set<FactKey>)
    requires d.facts.Keys <= u && LeafKeys(leaf, h.unkeyable) <= u
    ensures var r := ApplyLeaf(h, d, leaf, isTrue); r.Some? ==> r.value.facts.Keys <= u
  {
    hide ConditionFact, UnsignedStrictUpperBoundNonzero, FactsContradict, Refutes;
  }

  lemma {:induction false} RefineDisjunctInside<K, V>(
    h: Hooks<K, V>, d: Guarded<K, V>, cond: Expr, isTrue: bool, u: set<FactKey>)
    requires d.facts.Keys <= u && FactKeys(cond, h.unkeyable) <= u
    ensures var r := RefineDisjunct(h, d, cond, isTrue); r.Some? ==> r.value.facts.Keys <= u
    decreases Size(cond)
  {
    hide ApplyLeaf, Core, RefineBoth, RefineEither, LeafKeys;
    match Core(cond)
    case Expect(s) => RefineDisjunctInside(h, d, s, isTrue, u);
    case Not(s) => RefineDisjunctInside(h, d, s, !isTrue, u);
    case Comma(_, r) => RefineDisjunctInside(h, d, r, isTrue, u);
    case LAnd(l, r) => BothInside(h, d, l, r, isTrue, u); EitherInside(h, d, l, r, isTrue, u);
    case LOr(l, r) => BothInside(h, d, l, r, isTrue, u); EitherInside(h, d, l, r, isTrue, u);
    case leaf => ApplyLeafInside(h, d, leaf, isTrue, u);
  }

  lemma {:induction false} BothInside<K, V>(h: Hooks<K, V>, d: Guarded<K, V>, l: Expr, r: Expr, value: bool, u: set<FactKey>)
    requires d.facts.Keys <= u && FactKeys(l, h.unkeyable) <= u && FactKeys(r, h.unkeyable) <= u
    ensures var t := RefineBoth(h, d, l, r, value); t.Some? ==> t.value.facts.Keys <= u
    decreases Size(l) + Size(r)
  {
    hide RefineDisjunct, FactKeys;
    RefineDisjunctInside(h, d, l, value, u);
    var first := RefineDisjunct(h, d, l, value);
    if first.Some? {
      RefineDisjunctInside(h, first.value, r, value, u);
    }
  }

  lemma {:induction false} EitherInside<K, V>(h: Hooks<K, V>, d: Guarded<K, V>, l: Expr, r: Expr, value: bool, u: set<FactKey>)
    requires d.facts.Keys <= u && FactKeys(l, h.unkeyable) <= u && FactKeys(r, h.unkeyable) <= u
    ensures var t := RefineEither(h, d, l, r, value); t.Some? ==> t.value.facts.Keys <= u
    decreases Size(l) + Size(r)
  {
    hide RefineDisjunct, FactKeys, Refutes;
    RefineDisjunctInside(h, d, l, value, u);
    RefineDisjunctInside(h, d, r, value, u);
  }

  lemma {:induction false} KeptInside<K, V>(h: Hooks<K, V>, s: State<K, V>, cond: Expr, isTrue: bool, u: set<FactKey>)
    requires Inside(s, u) && FactKeys(cond, h.unkeyable) <= u
    ensures Inside(Kept(h, s, cond, isTrue), u)
  {
    hide RefineDisjunct, FactKeys;
    if s != [] {
      RefineDisjunctInside(h, s[0], cond, isTrue, u);
      KeptInside(h, s[1..], cond, isTrue, u);
    }
  }

  lemma {:induction false} MergeRunsInside<K, V>(ops: Ops<K, V>, acc: State<K, V>, s: State<K, V>, u: set<FactKey>)
    requires Inside(acc, u) && Inside(s, u)
    ensures Inside(MergeRuns(ops, acc, s), u)
    decreases |s|
  {
    if s != [] {
      var n := |acc|;
      MergeRunsInside(ops, if n > 0 && acc[n - 1].facts == s[0].facts then acc[..n - 1] + [MeetInto(ops, acc[n - 1], s[0])] else acc + [s[0]], s[1..], u);
    }
  }

  // --- What a widened join loses and raises ---

  /** g records nothing that f does not. */
  ghost predicate Fewer(g: Facts, f: Facts) {
    forall k :: k in g ==> k in f && f[k] == g[k]
  }

  ghost predicate SomeFewer<K, V>(s: State<K, V>, f: Facts) {
    exists i :: 0 <= i < |s| && Fewer(s[i].facts, f)
  }

  lemma {:induction false} MergeRunsFewer<K, V>(ops: Ops<K, V>, acc: State<K, V>, s: State<K, V>, f: Facts)
    requires SomeFewer(acc, f) || SomeFewer(s, f)
    ensures SomeFewer(MergeRuns(ops, acc, s), f)
    decreases |s|
  {
    hide Fewer;
    if s != [] {
      var n := |acc|;
      var next := if n > 0 && acc[n - 1].facts == s[0].facts then acc[..n - 1] + [MeetInto(ops, acc[n - 1], s[0])] else acc + [s[0]];
      if i :| 0 <= i < n && Fewer(acc[i].facts, f) {
        assert next[i].facts == acc[i].facts;
      } else {
        var i :| 0 <= i < |s| && Fewer(s[i].facts, f);
        if i == 0 {
          assert next[|next| - 1].facts == s[0].facts;
        } else {
          assert s[1..][i - 1] == s[i];
        }
      }
      MergeRunsFewer(ops, next, s[1..], f);
    }
  }

  lemma {:induction false} CollapseFewer<K, V>(ops: Ops<K, V>, acc: Guarded<K, V>, s: State<K, V>, f: Facts)
    ensures Fewer(Collapse(ops, acc, s).facts, acc.facts)
    ensures Fewer(acc.facts, f) || SomeFewer(s, f) ==> Fewer(Collapse(ops, acc, s).facts, f)
    decreases |s|
  {
    if s != [] {
      var next := Guarded(CommonFacts(acc.facts, s[0].facts), Combine(acc.vars, s[0].vars, ops.merge));
      if i :| 0 < i < |s| && Fewer(s[i].facts, f) {
        assert s[1..][i - 1] == s[i];
      }
      CollapseFewer(ops, next, s[1..], f);
    }
  }

  /** Miners record values only, and never lower one. */
  ghost predicate Modest<K(!new), V(!new)>(ops: Ops<K, V>, le: (V, V) -> bool) {
    forall s, w {:trigger ops.mine(s, w)} ::
      var r := ops.mine(s, w);
      Fewer(r.facts, w.facts) && r.vars.Keys == w.vars.Keys && forall k :: k in w.vars ==> le(w.vars[k], r.vars[k])
  }

  /** Merging values is an upper bound in an order of bounded height. */
  ghost predicate Raises<K(!new), V(!new)>(ops: Ops<K, V>, le: (V, V) -> bool, h: nat) {
    && Ordered(ops) && Drain.PartialOrder(le) && Drain.HeightBound(le, h) && Modest(ops, le)
    && (forall a, b {:trigger ops.merge(a, b)} :: le(a, ops.merge(a, b)) && le(b, ops.merge(a, b)))
    && (forall facts, a, b {:trigger ops.meet(facts, a, b)} :: le(a, ops.meet(facts, a, b)) && le(b, ops.meet(facts, a, b)))
  }

  lemma WidenFewer<K(!new), V(!new)>(ops: Ops<K, V>, le: (V, V) -> bool, s: State<K, V>, f: Facts)
    requires Modest(ops, le) && SomeFewer(s, f)
    ensures SomeFewer(Widen(ops, s), f)
  {
    var i :| 0 <= i < |s| && Fewer(s[i].facts, f);
    if |s| > 1 {
      if i > 0 {
        assert s[1..][i - 1] == s[i];
      }
      CollapseFewer(ops, s[0], s[1..], f);
      MinesFewer(ops, le, s, Collapse(ops, s[0], s[1..]), f);
    }
  }

  lemma MinesFewer<K(!new), V(!new)>(ops: Ops<K, V>, le: (V, V) -> bool, s: State<K, V>, w: Guarded<K, V>, f: Facts)
    requires Modest(ops, le) && Fewer(w.facts, f)
    ensures SomeFewer([ops.mine(s, w)], f)
  {
    var r := ops.mine(s, w);
    assert Fewer(r.facts, f);
    assert [r][0] == r;
  }

  lemma SortFewer<K(!new), V(!new)>(ops: Ops<K, V>, s: State<K, V>, f: Facts)
    requires Ordered(ops) && SomeFewer(s, f)
    ensures SomeFewer(Sort(ops, s), f)
  {
    hide Fewer;
    SortKeepsElements(ops, s);
    var i :| 0 <= i < |s| && Fewer(s[i].facts, f);
    assert s[i] in Sort(ops, s);
  }

  lemma MergeFewer<K(!new), V(!new)>(ops: Ops<K, V>, le: (V, V) -> bool, a: State<K, V>, s: State<K, V>, f: Facts)
    requires Ordered(ops) && Modest(ops, le) && SomeFewer(a, f)
    ensures SomeFewer(Merge(ops, a, s), f)
  {
    hide Fewer, Ordered, Modest, Sort, MergeRuns, Widen;
    var i :| 0 <= i < |a| && Fewer(a[i].facts, f);
    assert (a + s)[i] == a[i];
    SortFewer(ops, a + s, f);
    MergeRunsFewer(ops, [], Sort(ops, a + s), f);
    if |MergeRuns(ops, [], Sort(ops, a + s))| > MAX_DISJUNCTS {
      WidenFewer(ops, le, MergeRuns(ops, [], Sort(ops, a + s)), f);
    }
  }

  /** Reads values as upper bounds of one given value, and facts as vacuous. */
  ghost function AtLeast<K, V>(le: (V, V) -> bool): Reading<K, V, (K, V)> {
    Reading({}, {}, (x: (K, V)) => map[], (k: K, v: V, x: (K, V)) => k == x.0 ==> le(x.1, v))
  }

  lemma HigherHolds<K, V(!new)>(le: (V, V) -> bool, k: K, v: V, higher: V, x: (K, V))
    requires Drain.PartialOrder(le) && le(v, higher) && AtLeast<K, V>(le).holds(k, v, x)
    ensures AtLeast<K, V>(le).holds(k, higher, x)
  {
    assert k == x.0 ==> le(x.1, v) && le(v, higher);
  }

  lemma AtLeastSound<K(!new), V(!new)>(ops: Ops<K, V>, le: (V, V) -> bool, h: nat)
    requires Raises(ops, le, h)
    ensures OpsSound(AtLeast<K, V>(le), ops)
  {
    var rd := AtLeast<K, V>(le);
    forall k, a, b, x | rd.holds(k, a, x) || rd.holds(k, b, x)
      ensures rd.holds(k, ops.merge(a, b), x)
    {
      var m := ops.merge(a, b);
      HigherHolds(le, k, if rd.holds(k, a, x) then a else b, m, x);
    }
    forall facts, k, a, b, x | rd.holds(k, a, x) || rd.holds(k, b, x)
      ensures rd.holds(k, ops.meet(facts, a, b), x)
    {
      var m := ops.meet(facts, a, b);
      HigherHolds(le, k, if rd.holds(k, a, x) then a else b, m, x);
    }
    forall s, w, x: (K, V) | Means(rd, w, x)
      ensures Means(rd, ops.mine(s, w), x)
    {
      var r := ops.mine(s, w);
      forall k | k in r.vars
        ensures rd.holds(k, r.vars[k], x)
      {
        HigherHolds(le, k, w.vars[k], r.vars[k], x);
      }
    }
  }

  lemma AtLeastMeans<K, V>(le: (V, V) -> bool, d: Guarded<K, V>, k: K, v: V)
    requires k in d.vars
    ensures Means(AtLeast<K, V>(le), d, (k, v)) <==> le(v, d.vars[k])
  {
  }

  /** The widened join of a single disjunct with anything is a single disjunct with fewer facts and higher values. */
  lemma WidenedMergeRaises<K(!new), V(!new)>(
    ops: Ops<K, V>, le: (V, V) -> bool, h: nat, keys: set<K>, a: State<K, V>, s: State<K, V>)
    requires Raises(ops, le, h) && Tracks(a, keys) && Tracks(s, keys) && |a| == 1
    ensures var w := Widen(ops, Merge(ops, a, s));
            && |w| == 1 && Fewer(w[0].facts, a[0].facts) && w[0].vars.Keys == keys
            && forall k :: k in keys ==> le(a[0].vars[k], w[0].vars[k])
  {
    hide Widen, Merge, Ordered, MergeSound, MeetSound, MineSound, Modest, Means;
    var m := Merge(ops, a, s);
    var w := Widen(ops, m);
    AtLeastSound(ops, le, h);
    assert SomeFewer(a, a[0].facts);
    MergeFewer(ops, le, a, s, a[0].facts);
    WidenFewer(ops, le, m, a[0].facts);
    WidenSingle(ops, m);
    WidenedTracks(ops, le, h, keys, a, s);
    forall k | k in keys
      ensures le(a[0].vars[k], w[0].vars[k])
    {
      var rd, x := AtLeast<K, V>(le), (k, a[0].vars[k]);
      assert le(x.1, x.1);
      AtLeastMeans(le, a[0], k, x.1);
      CoveredAt(rd, a, 0, x);
      MergeCovers(rd, ops, a, s, keys, x);
      WidenCovers(rd, ops, m, keys, x);
      AtLeastMeans(le, w[0], k, x.1);
    }
  }

  lemma WidenSingle<K, V>(ops: Ops<K, V>, s: State<K, V>)
    ensures |Widen(ops, s)| <= 1
  {
  }

  lemma WidenedTracks<K(!new), V(!new)>(
    ops: Ops<K, V>, le: (V, V) -> bool, h: nat, keys: set<K>, a: State<K, V>, s: State<K, V>)
    requires Raises(ops, le, h) && Tracks(a, keys) && Tracks(s, keys)
    ensures Tracks(Merge(ops, a, s), keys) && Tracks(Widen(ops, Merge(ops, a, s)), keys)
  {
    assert KeysMined(ops);
    assert Tracks(a + s, keys);
    hide Widen, Normalize, KeysMined, Ordered;
    NormalizeTracks(ops, a + s, keys);
    WidenTracks(ops, Merge(ops, a, s), keys);
  }

  // --- How far a single disjunct has climbed ---

  function FactsLeft(u: set<FactKey>, facts: Facts): nat {
    W.Monus(|u|, |facts.Keys|)
  }

  lemma FewerLeft(u: set<FactKey>, g: Facts, f: Facts)
    requires Fewer(g, f) && f.Keys <= u
    ensures FactsLeft(u, g) >= FactsLeft(u, f)
    ensures g != f ==> FactsLeft(u, g) > FactsLeft(u, f)
  {
    assert g.Keys <= f.Keys;
    CardinalityMonotone(g.Keys, f.Keys);
    CardinalityMonotone(f.Keys, u);
    if g != f {
      assert g.Keys != f.Keys;
      SmallerSet(g.Keys, f.Keys);
    }
  }

  /** No disjunct at all, or a single one: the facts it has lost and the values it has raised. */
  ghost function Climbed<K(!new), V(!new)>(le: (V, V) -> bool, h: nat, u: set<FactKey>, keys: set<K>, s: State<K, V>): nat {
    if s == [] || !(keys <= s[0].vars.Keys) then 0 else 1 + FactsLeft(u, s[0].facts) + Drain.RankSum(le, h, keys, s[0].vars)
  }

  ghost function Steps<K(!new), V(!new)>(le: (V, V) -> bool, h: nat, u: set<FactKey>, keys: set<K>): W.Ladder<State<K, V>> {
    W.Ladder(
      (s: State<K, V>) => Tracks(s, keys) && Inside(s, u),
      (s: State<K, V>) => |s| <= 1,
      (s: State<K, V>) => Climbed(le, h, u, keys, s),
      1 + |u| + Drain.Times(|keys|, h))
  }

  lemma ClimbedBounded<K(!new), V(!new)>(le: (V, V) -> bool, h: nat, u: set<FactKey>, keys: set<K>, s: State<K, V>)
    ensures Climbed(le, h, u, keys, s) <= 1 + |u| + Drain.Times(|keys|, h)
  {
    if s != [] && keys <= s[0].vars.Keys {
      Drain.RankSumBounded(le, h, keys, s[0].vars);
    }
  }

  lemma WidenedMergeClimbs<K(!new), V(!new)>(
    ops: Ops<K, V>, le: (V, V) -> bool, h: nat, u: set<FactKey>, keys: set<K>, a: State<K, V>, s: State<K, V>)
    requires Raises(ops, le, h) && Tracks(a, keys) && Inside(a, u) && |a| <= 1 && Tracks(s, keys)
    ensures var w := Widen(ops, Merge(ops, a, s)); w == a || Climbed(le, h, u, keys, w) > Climbed(le, h, u, keys, a)
  {
    var w := Widen(ops, Merge(ops, a, s));
    assert Drain.HeightBound(le, h);
    WidenSingle(ops, Merge(ops, a, s));
    WidenedTracks(ops, le, h, keys, a, s);
    if a != [] {
      WidenedMergeRaises(ops, le, h, keys, a, s);
      hide Raises, Widen, Merge, Drain.RankSum, Fewer, Drain.HeightBound;
      FewerLeft(u, w[0].facts, a[0].facts);
      Drain.RankSumRises(le, h, keys, a[0].vars, w[0].vars);
      if w != a && w[0].facts == a[0].facts {
        assert w[0].vars != a[0].vars;
        assert exists k :: k in keys && a[0].vars[k] != w[0].vars[k];
      }
    }
  }

  // --- The operations keep keys tracked and facts inside the universe ---

  lemma CollapseInside<K(!new), V(!new)>(ops: Ops<K, V>, le: (V, V) -> bool, s: State<K, V>, u: set<FactKey>)
    requires Modest(ops, le) && Inside(s, u)
    ensures Inside(Widen(ops, s), u)
  {
    if |s| > 1 {
      CollapseFewer(ops, s[0], s[1..], map[]);
      var w := Collapse(ops, s[0], s[1..]);
      assert Fewer(ops.mine(s, w).facts, w.facts);
    }
  }

  lemma NormalizeInside<K(!new), V(!new)>(ops: Ops<K, V>, le: (V, V) -> bool, s: State<K, V>, u: set<FactKey>)
    requires Ordered(ops) && Modest(ops, le) && Inside(s, u)
    ensures Inside(Normalize(ops, s), u)
  {
    var sorted := Sort(ops, s);
    SortKeepsElements(ops, s);
    forall i | 0 <= i < |sorted|
      ensures sorted[i].facts.Keys <= u
    {
      assert sorted[i] in s;
    }
    hide Sort, Widen, MergeRuns, Modest, Ordered;
    MergeRunsInside(ops, [], sorted, u);
    CollapseInside(ops, le, MergeRuns(ops, [], sorted), u);
  }

  /** The client's order of values, and hooks that keep the tracked variables. */
  ghost predicate Settles<K(!new), V(!new)>(c: Client<K, V>, le: (V, V) -> bool, h: nat) {
    && Raises(c.ops, le, h) && KeepsKeys(c.hooks)
    && forall stmt, d {:trigger c.update(stmt, d)} :: c.update(stmt, d).Keys == d.vars.Keys
  }

  /** Clients that pass a value merge and nothing else settle when it is an upper bound. */
  lemma PlainClientSettles<K(!new), V(!new)>(c: Client<K, V>, le: (V, V) -> bool, h: nat)
    requires Ordered(c.ops) && Drain.PartialOrder(le) && Drain.HeightBound(le, h)
    requires c.hooks == PlainHooks(c.hooks.unkeyable) && c.ops == PlainOps(c.ops.factsLess, c.ops.varsLess, c.ops.merge)
    requires forall a, b {:trigger c.ops.merge(a, b)} :: le(a, c.ops.merge(a, b)) && le(b, c.ops.merge(a, b))
    requires forall stmt, d {:trigger c.update(stmt, d)} :: c.update(stmt, d).Keys == d.vars.Keys
    ensures Settles(c, le, h)
  {
    hide Drain.HeightBound, Ordered;
    var ops := c.ops;
    forall facts, a, b {:trigger ops.meet(facts, a, b)}
      ensures le(a, ops.meet(facts, a, b)) && le(b, ops.meet(facts, a, b))
    {
      assert ops.meet(facts, a, b) == ops.merge(a, b);
    }
    assert Modest(ops, le) by {
      assert forall s, w :: ops.mine(s, w) == w;
    }
  }

  lemma MergeKeeps<K(!new), V(!new)>(
    c: Client<K, V>, le: (V, V) -> bool, h: nat, u: set<FactKey>, a: State<K, V>, b: State<K, V>)
    requires Settles(c, le, h) && Tracks(a, c.initial.Keys) && Tracks(b, c.initial.Keys) && Inside(a, u) && Inside(b, u)
    ensures Tracks(Merge(c.ops, a, b), c.initial.Keys) && Inside(Merge(c.ops, a, b), u)
  {
    WidenedTracks(c.ops, le, h, c.initial.Keys, a, b);
    assert Inside(a + b, u);
    hide Widen, Normalize, Modest, Ordered;
    NormalizeInside(c.ops, le, a + b, u);
  }

  lemma RefineKeeps<K(!new), V(!new)>(
    c: Client<K, V>, le: (V, V) -> bool, h: nat, u: set<FactKey>, s: State<K, V>, cond: Expr, taken: bool)
    requires Settles(c, le, h) && Tracks(s, c.initial.Keys) && Inside(s, u) && FactKeys(cond, c.hooks.unkeyable) <= u
    ensures var r := Refined(c.ops, c.hooks, s, cond, taken); Tracks(r, c.initial.Keys) && Inside(r, u)
  {
    assert KeysMined(c.ops);
    var kept := Kept(c.hooks, s, cond, taken);
    KeptTracks(c.hooks, s, cond, taken, c.initial.Keys);
    KeptInside(c.hooks, s, cond, taken, u);
    hide Normalize, Modest, Ordered, Kept, KeysMined, KeepsKeys;
    NormalizeTracks(c.ops, kept, c.initial.Keys);
    NormalizeInside(c.ops, le, kept, u);
  }

  lemma WidenKeeps<K(!new), V(!new)>(
    c: Client<K, V>, le: (V, V) -> bool, h: nat, u: set<FactKey>, s: State<K, V>)
    requires Settles(c, le, h) && Tracks(s, c.initial.Keys) && Inside(s, u)
    ensures Tracks(Widen(c.ops, s), c.initial.Keys) && Inside(Widen(c.ops, s), u)
  {
    assert KeysMined(c.ops);
    hide Widen, Modest, Ordered, KeysMined;
    WidenTracks(c.ops, s, c.initial.Keys);
    CollapseInside(c.ops, le, s, u);
  }

  lemma TransferKeeps<K(!new), V(!new)>(
    c: Client<K, V>, le: (V, V) -> bool, h: nat, u: set<FactKey>, s: State<K, V>, stmt: Stmt)
    requires Settles(c, le, h) && Tracks(s, c.initial.Keys) && Inside(s, u) && StampKeys(stmt, c.stampable) <= u
    ensures Tracks(Transfer(c, stmt, s), c.initial.Keys) && Inside(Transfer(c, stmt, s), u)
  {
    assert KeysMined(c.ops);
    var updated := UpdateAll(c, stmt, s);
    assert Tracks(updated, c.initial.Keys) && Inside(updated, u);
    if AssignedDecl(stmt).Some? {
      var next := RestampAll(updated, AssignedDecl(stmt).value, StampOf(stmt, c.stampable));
      hide Normalize, Modest, Ordered, KeysMined, StampOf, AssignedDecl, Mentions;
      NormalizeTracks(c.ops, next, c.initial.Keys);
      NormalizeInside(c.ops, le, next, u);
    }
  }

  // --- The engine's laws ---

  lemma BranchInUniverse<K(!new), V(!new)>(
    cfg: IA.Flow, c: Client<K, V>, flags: map<Decl, int64>, fatal: Stmt -> bool, cond: Expr)
    requires W.Tested(cfg, EngineHooks(c, flags, fatal), cond)
    ensures FactKeys(cond, c.hooks.unkeyable) <= Universe(cfg, c)
  {
    hide FactKeys, IA.EdgeCondition;
    var b: D.BlockId :| b < |cfg.blocks| && cfg.blocks[b].cond.Some? && IA.EdgeCondition(cfg.blocks[b].cond.value, false).0 == cond;
    assert BranchKeys(cfg, c.hooks.unkeyable, b) == FactKeys(cond, c.hooks.unkeyable);
  }

  lemma StampInUniverse<K(!new), V(!new)>(cfg: IA.Flow, c: Client<K, V>, stmt: Stmt)
    requires W.Occurs(cfg, stmt)
    ensures StampKeys(stmt, c.stampable) <= Universe(cfg, c)
  {
    hide StampKeys;
    var b: D.BlockId :| b < |cfg.blocks| && stmt in cfg.blocks[b].elems;
    var i :| 0 <= i < |cfg.blocks[b].elems| && cfg.blocks[b].elems[i] == stmt;
  }

  lemma HooksKeepOk<K(!new), V(!new)>(
    cfg: IA.Flow, c: Client<K, V>, flags: map<Decl, int64>, fatal: Stmt -> bool, le: (V, V) -> bool, h: nat)
    requires Settles(c, le, h)
    ensures W.KeepsOk(cfg, EngineHooks(c, flags, fatal), Steps(le, h, Universe(cfg, c), c.initial.Keys))
  {
    hide Settles, Universe, Merge, Transfer, Refined, Widen, Climbed, FactKeys, StampKeys, W.Tested, W.Occurs;
    var keys, u := c.initial.Keys, Universe(cfg, c);
    forall a, b | Tracks(a, keys) && Tracks(b, keys) && Inside(a, u) && Inside(b, u)
      ensures Tracks(Merge(c.ops, a, b), keys) && Inside(Merge(c.ops, a, b), u)
    {
      MergeKeeps(c, le, h, u, a, b);
    }
    forall stmt, s | W.Occurs(cfg, stmt) && Tracks(s, keys) && Inside(s, u)
      ensures Tracks(Transfer(c, stmt, s), keys) && Inside(Transfer(c, stmt, s), u)
    {
      StampInUniverse(cfg, c, stmt);
      TransferKeeps(c, le, h, u, s, stmt);
    }
    forall cond, taken, s | W.Tested(cfg, EngineHooks(c, flags, fatal), cond) && Tracks(s, keys) && Inside(s, u)
      ensures Tracks(Refined(c.ops, c.hooks, s, cond, taken), keys) && Inside(Refined(c.ops, c.hooks, s, cond, taken), u)
    {
      BranchInUniverse(cfg, c, flags, fatal, cond);
      RefineKeeps(c, le, h, u, s, cond, taken);
    }
    forall s | Tracks(s, keys) && Inside(s, u)
      ensures Tracks(Widen(c.ops, s), keys) && Inside(Widen(c.ops, s), u)
    {
      WidenKeeps(c, le, h, u, s);
    }
  }

  lemma WidenLaws<K(!new), V(!new)>(
    cfg: IA.Flow, c: Client<K, V>, flags: map<Decl, int64>, fatal: Stmt -> bool, le: (V, V) -> bool, h: nat, s: State<K, V>)
    ensures var an, l := EngineHooks(c, flags, fatal), Steps(le, h, Universe(cfg, c), c.initial.Keys);
            an.widen.Some? && l.flat(an.widen.value(s)) && l.rank(an.widen.value(s)) <= l.top
  {
    WidenSingle(c.ops, s);
    ClimbedBounded(le, h, Universe(cfg, c), c.initial.Keys, Widen(c.ops, s));
    hide Widen, Climbed, Universe;
  }

  lemma ClimbLaws<K(!new), V(!new)>(
    cfg: IA.Flow, c: Client<K, V>, flags: map<Decl, int64>, fatal: Stmt -> bool, le: (V, V) -> bool, h: nat,
    a: State<K, V>, s: State<K, V>)
    requires Settles(c, le, h)
    requires var l := Steps(le, h, Universe(cfg, c), c.initial.Keys); l.ok(a) && l.flat(a) && l.ok(s)
    ensures var an, l := EngineHooks(c, flags, fatal), Steps(le, h, Universe(cfg, c), c.initial.Keys);
            an.widen.Some? && var w := an.widen.value(an.merge(a, s)); w == a || l.rank(w) > l.rank(a)
  {
    hide Raises, KeepsKeys, Widen, Merge, Climbed, Universe;
    WidenedMergeClimbs(c.ops, le, h, Universe(cfg, c), c.initial.Keys, a, s);
  }

  /** The widening of the guarded disjuncts stabilises, whatever the transfer does to facts. */
  lemma GuardedStabilise<K(!new), V(!new)>(
    cfg: IA.Flow, c: Client<K, V>, flags: map<Decl, int64>, fatal: Stmt -> bool, le: (V, V) -> bool, h: nat)
    requires Settles(c, le, h)
    ensures W.Stabilises(cfg, EngineHooks(c, flags, fatal), Steps(le, h, Universe(cfg, c), c.initial.Keys))
  {
    hide *;
    HooksKeepOk(cfg, c, flags, fatal, le, h);
    var an, l := EngineHooks(c, flags, fatal), Steps(le, h, Universe(cfg, c), c.initial.Keys);
    WidenLaws(cfg, c, flags, fatal, le, h, []);
    forall s {:trigger an.widen.value(s)} | l.ok(s)
      ensures l.flat(an.widen.value(s)) && l.rank(an.widen.value(s)) <= l.top
    {
      WidenLaws(cfg, c, flags, fatal, le, h, s);
    }
    forall a, s {:trigger an.merge(a, s)} | l.ok(a) && l.flat(a) && l.ok(s)
      ensures var w := an.widen.value(an.merge(a, s)); w == a || l.rank(w) > l.rank(a)
    {
      ClimbLaws(cfg, c, flags, fatal, le, h, a, s);
    }
    W.StabilisesBy(cfg, an, l);
  }

  lemma StepsTop<K(!new), V(!new)>(cfg: IA.Flow, c: Client<K, V>, flags: map<Decl, int64>, fatal: Stmt -> bool, le: (V, V) -> bool, h: nat)
    ensures Steps(le, h, Universe(cfg, c), c.initial.Keys).top == 1 + |Universe(cfg, c)| + Drain.Times(|c.initial.Keys|, h)
    ensures EngineHooks(c, flags, fatal).latticeHeight == c.latticeHeight
  {
  }

  /**
   On any graph, the uncapped worklist of the guarded analysis drains within one visit and, for
   every edge, latticeHeight + 4 visits, one for every key facts can be recorded about, and h
   for every tracked variable, h being the height of the values' order.
   */
  lemma GuardedDrains<K(!new), V(!new)>(
    cfg: IA.Flow, c: Client<K, V>, flags: map<Decl, int64>, fatal: Stmt -> bool, le: (V, V) -> bool, h: nat, limit: nat)
    requires Settles(c, le, h)
    requires limit >= 1 + Drain.EdgeBudget(cfg, c.latticeHeight + 3 + |Universe(cfg, c)| + Drain.Times(|c.initial.Keys|, h), |cfg.blocks|)
    ensures D.Iterate(cfg, EngineHooks(c, flags, fatal), D.Start(cfg), limit).worklist == []
  {
    hide *;
    GuardedStabilise(cfg, c, flags, fatal, le, h);
    StepsTop(cfg, c, flags, fatal, le, h);
    W.WideningDrainsFlat(cfg, EngineHooks(c, flags, fatal), Steps(le, h, Universe(cfg, c), c.initial.Keys), limit);
  }

  /** The coded cap suffices when a budget computed from the graph fits it. */
  lemma GuardedConvergesWithinCap<K(!new), V(!new)>(
    cfg: IA.Flow, c: Client<K, V>, flags: map<Decl, int64>, fatal: Stmt -> bool, le: (V, V) -> bool, h: nat, rounds: nat)
    requires Settles(c, le, h)
    requires W.CapCovers(cfg, c.latticeHeight, 1 + |Universe(cfg, c)| + Drain.Times(|c.initial.Keys|, h), rounds)
    ensures D.Solve(cfg, EngineHooks(c, flags, fatal)).converged
  {
    hide *;
    GuardedStabilise(cfg, c, flags, fatal, le, h);
    StepsTop(cfg, c, flags, fatal, le, h);
    W.WideningConvergesWithinCap(cfg, EngineHooks(c, flags, fatal), Steps(le, h, Universe(cfg, c), c.initial.Keys), rounds);
  }
}
