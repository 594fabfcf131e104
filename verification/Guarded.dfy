/**
 Guarded disjuncts: the bounded set of (facts, values) pairs of src/engine/GuardedDisjuncts.h,
 its canonical form and its joins.
 */
module Guarded {
  import opened Int64
  import opened Ast
  import opened PathFacts

  datatype Guarded<K(==), V> = Guarded(facts: Facts, vars: map<K, V>)

  type State<K, V> = seq<Guarded<K, V>>

  const MAX_DISJUNCTS: nat := 4

  /**
   What a client supplies. Keys and variables are ordered by address, so the orders of fact
   maps and value maps are parameters: any strict total orders.
   */
  datatype Ops<!K(==), !V> = Ops(
    factsLess: (Facts, Facts) -> bool,
    varsLess: (map<K, V>, map<K, V>) -> bool,
    merge: (V, V) -> V,
    meet: (Facts, V, V) -> V,                                     // values under the same facts
    mine: (State<K, V>, Guarded<K, V>) -> Guarded<K, V>)          // what a collapse may keep

  // --- Orders ---

  ghost predicate StrictTotal<T(!new)>(less: (T, T) -> bool) {
    && (forall a :: !less(a, a))
    && (forall a, b, c {:trigger less(a, b), less(b, c)} :: less(a, b) && less(b, c) ==> less(a, c))
    && (forall a, b {:trigger less(a, b)} :: a == b || less(a, b) || less(b, a))
  }

  ghost predicate Ordered<K(!new), V(!new)>(ops: Ops<K, V>) {
    StrictTotal(ops.factsLess) && StrictTotal(ops.varsLess)
  }

  predicate Less<K, V(==)>(ops: Ops<K, V>, a: Guarded<K, V>, b: Guarded<K, V>) {
    if a.facts != b.facts then ops.factsLess(a.facts, b.facts) else ops.varsLess(a.vars, b.vars)
  }

  lemma LessIsStrictTotal<K(!new), V(!new)>(ops: Ops<K, V>, a: Guarded<K, V>, b: Guarded<K, V>, c: Guarded<K, V>)
    requires Ordered(ops)
    ensures !Less(ops, a, a)
    ensures Less(ops, a, b) && Less(ops, b, c) ==> Less(ops, a, c)
    ensures a == b || Less(ops, a, b) || Less(ops, b, a)
    ensures !(Less(ops, a, b) && Less(ops, b, a))
  {
  }

  // --- Sorting ---

  function Insert<K, V(==)>(ops: Ops<K, V>, d: Guarded<K, V>, s: State<K, V>): State<K, V> {
    if s == [] then [d]
    else if Less(ops, s[0], d) then [s[0]] + Insert(ops, d, s[1..])
    else [d] + s
  }

  function Sort<K, V(==)>(ops: Ops<K, V>, s: State<K, V>): State<K, V> {
    if s == [] then [] else Insert(ops, s[0], Sort(ops, s[1..]))
  }

  ghost predicate Sorted<K, V>(ops: Ops<K, V>, s: State<K, V>) {
    forall i, j :: 0 <= i < j < |s| ==> !Less(ops, s[j], s[i])
  }

  lemma SortedCons<K, V>(ops: Ops<K, V>, x: Guarded<K, V>, s: State<K, V>)
    ensures Sorted(ops, [x] + s) <==> Sorted(ops, s) && forall y :: y in s ==> !Less(ops, y, x)
  {
    var t := [x] + s;
    assert forall i :: 0 <= i < |s| ==> t[i + 1] == s[i];
    if Sorted(ops, t) {
      forall i, j | 0 <= i < j < |s|
        ensures !Less(ops, s[j], s[i])
      {
        assert !Less(ops, t[j + 1], t[i + 1]);
      }
      forall y | y in s
        ensures !Less(ops, y, x)
      {
        var i :| 0 <= i < |s| && s[i] == y;
        assert !Less(ops, t[i + 1], t[0]);
      }
    }
  }

  lemma {:induction false} InsertElements<K, V>(ops: Ops<K, V>, d: Guarded<K, V>, s: State<K, V>)
    ensures multiset(Insert(ops, d, s)) == multiset(s) + multiset{d}
    ensures forall y :: y in Insert(ops, d, s) <==> y == d || y in s
  {
    hide Less;
    if s != [] {
      assert s == [s[0]] + s[1..];
      InsertElements(ops, d, s[1..]);
    }
  }

  lemma {:induction false} InsertSorts<K(!new), V(!new)>(ops: Ops<K, V>, d: Guarded<K, V>, s: State<K, V>)
    requires Ordered(ops) && Sorted(ops, s)
    ensures Sorted(ops, Insert(ops, d, s))
  {
    hide Less, Ordered, Sorted;
    if s == [] {
      OneSorted(ops, d);
    } else {
      assert s == [s[0]] + s[1..];
      SortedCons(ops, s[0], s[1..]);
      LessIsStrictTotal(ops, s[0], d, s[0]);
      if Less(ops, s[0], d) {
        InsertSorts(ops, d, s[1..]);
        InsertElements(ops, d, s[1..]);
        SortedCons(ops, s[0], Insert(ops, d, s[1..]));
      } else {
        forall x | x in s
          ensures !Less(ops, x, d)
        {
          LessIsStrictTotal(ops, s[0], x, d);
          LessIsStrictTotal(ops, x, d, s[0]);
        }
        SortedCons(ops, d, s);
      }
    }
  }

  lemma OneSorted<K, V>(ops: Ops<K, V>, d: Guarded<K, V>)
    ensures Sorted(ops, [d])
  {
  }

  lemma {:induction false} SortSorts<K(!new), V(!new)>(ops: Ops<K, V>, s: State<K, V>)
    requires Ordered(ops)
    ensures Sorted(ops, Sort(ops, s)) && multiset(Sort(ops, s)) == multiset(s)
  {
    if s != [] {
      assert s == [s[0]] + s[1..];
      SortSorts(ops, s[1..]);
      InsertSorts(ops, s[0], Sort(ops, s[1..]));
      InsertElements(ops, s[0], Sort(ops, s[1..]));
    }
  }

  lemma SortKeepsElements<K(!new), V(!new)>(ops: Ops<K, V>, s: State<K, V>)
    requires Ordered(ops)
    ensures forall d :: d in s <==> d in Sort(ops, s)
  {
    SortSorts(ops, s);
    assert forall d :: d in s <==> d in multiset(s);
    assert forall d :: d in Sort(ops, s) <==> d in multiset(Sort(ops, s));
  }

  lemma FirstIsLeast<K(!new), V(!new)>(ops: Ops<K, V>, s: State<K, V>, y: Guarded<K, V>)
    requires Ordered(ops) && s != [] && Sorted(ops, s)
    ensures y in multiset(s) ==> !Less(ops, y, s[0])
    ensures Sorted(ops, s[1..])
    ensures s[0] in multiset(s)
  {
    assert s == [s[0]] + s[1..];
    SortedCons(ops, s[0], s[1..]);
    LessIsStrictTotal(ops, s[0], s[0], s[0]);
  }

  lemma RestMultiset<T>(s: seq<T>)
    requires s != []
    ensures s == [s[0]] + s[1..] && multiset(s[1..]) == multiset(s) - multiset{s[0]}
  {
    assert s == [s[0]] + s[1..];
  }

  /** A multiset of disjuncts has one sorted enumeration. */
  lemma {:induction false} SortedUnique<K(!new), V(!new)>(ops: Ops<K, V>, s: State<K, V>, t: State<K, V>)
    requires Ordered(ops) && Sorted(ops, s) && Sorted(ops, t) && multiset(s) == multiset(t)
    ensures s == t
  {
    hide Less, Ordered, Sorted;
    if s == [] || t == [] {
      assert |s| == |multiset(s)| && |t| == |multiset(t)|;
    } else {
      FirstIsLeast(ops, s, t[0]);
      FirstIsLeast(ops, t, s[0]);
      LessIsStrictTotal(ops, s[0], t[0], s[0]);
      RestMultiset(s);
      RestMultiset(t);
      SortedUnique(ops, s[1..], t[1..]);
    }
  }

  // --- Merging disjuncts with the same facts ---

  function Combine<K, V>(into: map<K, V>, from: map<K, V>, op: (V, V) -> V): map<K, V> {
    map k | k in into.Keys + from.Keys ::
      if k !in from then into[k] else if k !in into then from[k] else op(into[k], from[k])
  }

  function MeetInto<K, V>(ops: Ops<K, V>, into: Guarded<K, V>, from: Guarded<K, V>): Guarded<K, V> {
    into.(vars := Combine(into.vars, from.vars, (a, b) => ops.meet(into.facts, a, b)))
  }

  /** Appends the disjuncts of s, merging each into the last one when their facts agree. */
  function MergeRuns<K, V>(ops: Ops<K, V>, acc: State<K, V>, s: State<K, V>): State<K, V>
    decreases |s|
  {
    if s == [] then acc
    else if acc != [] && acc[|acc| - 1].facts == s[0].facts then
      MergeRuns(ops, acc[..|acc| - 1] + [MeetInto(ops, acc[|acc| - 1], s[0])], s[1..])
    else MergeRuns(ops, acc + [s[0]], s[1..])
  }

  // --- Collapsing to one disjunct ---

  function CommonFacts(a: Facts, b: Facts): Facts {
    map k | k in a && k in b && a[k] == b[k] :: a[k]
  }

  /** Facts all agree on, and the merge of all values. */
  function Collapse<K, V>(ops: Ops<K, V>, acc: Guarded<K, V>, s: State<K, V>): Guarded<K, V>
    decreases |s|
  {
    if s == [] then acc
    else Collapse(ops, Guarded(CommonFacts(acc.facts, s[0].facts), Combine(acc.vars, s[0].vars, ops.merge)), s[1..])
  }

  function Widen<K, V>(ops: Ops<K, V>, s: State<K, V>): State<K, V> {
    if |s| <= 1 then s else [ops.mine(s, Collapse(ops, s[0], s[1..]))]
  }

  // --- Canonical form ---

  function Normalize<K, V(==)>(ops: Ops<K, V>, s: State<K, V>): State<K, V> {
    var merged := MergeRuns(ops, [], Sort(ops, s));
    if |merged| > MAX_DISJUNCTS then Widen(ops, merged) else merged
  }

  function Merge<K, V(==)>(ops: Ops<K, V>, a: State<K, V>, b: State<K, V>): State<K, V> {
    Normalize(ops, a + b)
  }

  /** Strictly increasing fact maps: in particular no two disjuncts have the same facts. */
  ghost predicate Increasing<K, V>(ops: Ops<K, V>, s: State<K, V>) {
    forall i, j :: 0 <= i < j < |s| ==> ops.factsLess(s[i].facts, s[j].facts)
  }

  lemma {:induction false} MergeRunsIncreasing<K(!new), V(!new)>(ops: Ops<K, V>, acc: State<K, V>, s: State<K, V>)
    requires Ordered(ops) && Sorted(ops, s) && Increasing(ops, acc)
    requires acc != [] && s != [] ==> acc[|acc| - 1].facts == s[0].facts || ops.factsLess(acc[|acc| - 1].facts, s[0].facts)
    ensures Increasing(ops, MergeRuns(ops, acc, s))
    decreases |s|
  {
    if s != [] {
      var n := |acc|;
      assert |s| > 1 ==> !Less(ops, s[1], s[0]);
      if n > 0 && acc[n - 1].facts == s[0].facts {
        MergeRunsIncreasing(ops, acc[..n - 1] + [MeetInto(ops, acc[n - 1], s[0])], s[1..]);
      } else {
        var next := acc + [s[0]];
        forall i, j | 0 <= i < j < |next|
          ensures ops.factsLess(next[i].facts, next[j].facts)
        {
          if j == n && i < n - 1 {
            assert ops.factsLess(acc[i].facts, acc[n - 1].facts);
          }
        }
        MergeRunsIncreasing(ops, next, s[1..]);
      }
    }
  }

  /** At most four disjuncts, with strictly increasing fact maps. */
  lemma NormalizeShape<K(!new), V(!new)>(ops: Ops<K, V>, s: State<K, V>)
    requires Ordered(ops)
    ensures |Normalize(ops, s)| <= MAX_DISJUNCTS
    ensures Increasing(ops, Normalize(ops, s))
  {
    SortSorts(ops, s);
    MergeRunsIncreasing(ops, [], Sort(ops, s));
  }

  lemma {:induction false} MergeRunsOfIncreasing<K(!new), V(!new)>(ops: Ops<K, V>, acc: State<K, V>, s: State<K, V>)
    requires Ordered(ops) && Increasing(ops, acc + s)
    ensures MergeRuns(ops, acc, s) == acc + s
    decreases |s|
  {
    if s == [] {
      assert acc + s == acc;
    } else {
      var n := |acc|;
      assert (acc + s)[n] == s[0];
      if n > 0 {
        assert (acc + s)[n - 1] == acc[n - 1];
        assert ops.factsLess((acc + s)[n - 1].facts, (acc + s)[n].facts);
      }
      assert (acc + [s[0]]) + s[1..] == acc + s;
      MergeRunsOfIncreasing(ops, acc + [s[0]], s[1..]);
    }
  }

  lemma IncreasingIsSorted<K(!new), V(!new)>(ops: Ops<K, V>, s: State<K, V>)
    requires Ordered(ops) && Increasing(ops, s)
    ensures Sorted(ops, s) && Sort(ops, s) == s
  {
    forall i, j | 0 <= i < j < |s|
      ensures !Less(ops, s[j], s[i])
    {
      assert Less(ops, s[i], s[j]);
      LessIsStrictTotal(ops, s[i], s[j], s[i]);
    }
    SortSorts(ops, s);
    SortedUnique(ops, Sort(ops, s), s);
  }

  /** A canonical state is left as it is; hence normalising twice is normalising once. */
  lemma NormalizeIdempotent<K(!new), V(!new)>(ops: Ops<K, V>, s: State<K, V>)
    requires Ordered(ops)
    ensures Increasing(ops, s) && |s| <= MAX_DISJUNCTS ==> Normalize(ops, s) == s
    ensures Normalize(ops, Normalize(ops, s)) == Normalize(ops, s)
  {
    NormalizeShape(ops, s);
    if Increasing(ops, s) {
      IncreasingIsSorted(ops, s);
      MergeRunsOfIncreasing(ops, [], s);
    }
    var r := Normalize(ops, s);
    IncreasingIsSorted(ops, r);
    MergeRunsOfIncreasing(ops, [], r);
    assert [] + r == r && [] + s == s;
  }

  /** The order of the disjuncts does not matter, whatever the value operations are. */
  lemma NormalizeIgnoresOrder<K(!new), V(!new)>(ops: Ops<K, V>, s: State<K, V>, t: State<K, V>)
    requires Ordered(ops) && multiset(s) == multiset(t)
    ensures Normalize(ops, s) == Normalize(ops, t)
  {
    SortSorts(ops, s);
    SortSorts(ops, t);
    SortedUnique(ops, Sort(ops, s), Sort(ops, t));
  }

  lemma MergeCommutes<K(!new), V(!new)>(ops: Ops<K, V>, a: State<K, V>, b: State<K, V>)
    requires Ordered(ops)
    ensures Merge(ops, a, b) == Merge(ops, b, a)
  {
    assert multiset(a + b) == multiset(a) + multiset(b) == multiset(b + a);
    NormalizeIgnoresOrder(ops, a + b, b + a);
  }

  // --- What a state means ---

  /**
   Concrete states of the program: the store of its integer variables, and which values
   describe which of the client's variables. Facts are read as true except on unkeyable
   variables and on stale ones, which calls write behind the analysis' back.
   */
  datatype Reading<!K, !V, !X> = Reading(unkeyable: set<Decl>, stale: set<Decl>, env: X -> Store, holds: (K, V, X) -> bool) {
    function Ignored(): set<Decl> {
      unkeyable + stale
    }
  }

  ghost predicate Values<K, V, X>(rd: Reading<K, V, X>, vars: map<K, V>, x: X) {
    forall k :: k in vars ==> rd.holds(k, vars[k], x)
  }

  /** The disjunct covers x: its facts are true and its values describe x. */
  ghost predicate Means<K, V, X>(rd: Reading<K, V, X>, d: Guarded<K, V>, x: X) {
    FactsHold(d.facts, rd.Ignored(), rd.env(x)) && Values(rd, d.vars, x)
  }

  /** Some disjunct covers x. */
  ghost predicate Covered<K, V, X>(rd: Reading<K, V, X>, s: State<K, V>, x: X) {
    exists i :: 0 <= i < |s| && Means(rd, s[i], x)
  }

  predicate Tracks<K, V>(s: State<K, V>, keys: set<K>) {
    forall i :: 0 <= i < |s| ==> s[i].vars.Keys == keys
  }

  ghost predicate MergeSound<K(!new), V(!new), X(!new)>(rd: Reading<K, V, X>, ops: Ops<K, V>) {
    forall k, a, b, x {:trigger rd.holds(k, ops.merge(a, b), x)} ::
      rd.holds(k, a, x) || rd.holds(k, b, x) ==> rd.holds(k, ops.merge(a, b), x)
  }

  /** Values met under shared facts need be right only where the facts are true. */
  ghost predicate MeetSound<K(!new), V(!new), X(!new)>(rd: Reading<K, V, X>, ops: Ops<K, V>) {
    forall facts, k, a, b, x {:trigger rd.holds(k, ops.meet(facts, a, b), x)} ::
      FactsHold(facts, rd.Ignored(), rd.env(x)) && (rd.holds(k, a, x) || rd.holds(k, b, x)) ==>
        rd.holds(k, ops.meet(facts, a, b), x)
  }

  /** The miner may record what is true on every path the collapsed disjuncts cover. */
  ghost predicate MineSound<K(!new), V(!new), X(!new)>(rd: Reading<K, V, X>, ops: Ops<K, V>) {
    && (forall s, w {:trigger ops.mine(s, w)} :: ops.mine(s, w).vars.Keys == w.vars.Keys)
    && (forall s, w, x {:trigger Means(rd, ops.mine(s, w), x)} ::
          Covered(rd, s, x) && Means(rd, w, x) ==> Means(rd, ops.mine(s, w), x))
  }

  ghost predicate OpsSound<K(!new), V(!new), X(!new)>(rd: Reading<K, V, X>, ops: Ops<K, V>) {
    MergeSound(rd, ops) && MeetSound(rd, ops) && MineSound(rd, ops)
  }

  lemma MeetIntoMeans<K(!new), V(!new), X(!new)>(rd: Reading<K, V, X>, ops: Ops<K, V>, a: Guarded<K, V>, b: Guarded<K, V>, x: X)
    requires MeetSound(rd, ops) && a.facts == b.facts && a.vars.Keys == b.vars.Keys
    requires Means(rd, a, x) || Means(rd, b, x)
    ensures Means(rd, MeetInto(ops, a, b), x) && MeetInto(ops, a, b).vars.Keys == a.vars.Keys
  {
    hide FactsHold;
    var r := MeetInto(ops, a, b);
    forall k | k in r.vars
      ensures rd.holds(k, r.vars[k], x)
    {
      assert r.vars[k] == ops.meet(a.facts, a.vars[k], b.vars[k]);
    }
  }

  lemma CoveredAt<K, V, X>(rd: Reading<K, V, X>, s: State<K, V>, i: nat, x: X)
    requires i < |s| && Means(rd, s[i], x)
    ensures Covered(rd, s, x)
  {
  }

  lemma CoveredConcat<K, V, X>(rd: Reading<K, V, X>, a: State<K, V>, b: State<K, V>, x: X)
    ensures Covered(rd, a + b, x) <==> Covered(rd, a, x) || Covered(rd, b, x)
  {
    hide Means;
    forall i | 0 <= i < |a| && Means(rd, a[i], x)
      ensures Covered(rd, a + b, x)
    {
      assert (a + b)[i] == a[i];
    }
    forall i | 0 <= i < |b| && Means(rd, b[i], x)
      ensures Covered(rd, a + b, x)
    {
      assert (a + b)[|a| + i] == b[i];
    }
  }

  lemma CoveredOne<K, V, X>(rd: Reading<K, V, X>, d: Guarded<K, V>, x: X)
    ensures Covered(rd, [d], x) <==> Means(rd, d, x)
  {
    assert [d][0] == d;
  }

  lemma {:induction false} MergeRunsCovers<K(!new), V(!new), X(!new)>(
    rd: Reading<K, V, X>, ops: Ops<K, V>, acc: State<K, V>, s: State<K, V>, keys: set<K>, x: X)
    requires MeetSound(rd, ops) && Tracks(acc, keys) && Tracks(s, keys)
    ensures Tracks(MergeRuns(ops, acc, s), keys)
    ensures Covered(rd, acc, x) || Covered(rd, s, x) ==> Covered(rd, MergeRuns(ops, acc, s), x)
    decreases |s|
  {
    hide Covered, Means, MeetSound, MeetInto;
    if s == [] {
      EmptyCoversNothing(rd, s, x);
    } else {
      var n := |acc|;
      assert s == [s[0]] + s[1..];
      CoveredConcat(rd, [s[0]], s[1..], x);
      if n > 0 && acc[n - 1].facts == s[0].facts {
        var last, joined := acc[n - 1], MeetInto(ops, acc[n - 1], s[0]);
        assert acc == acc[..n - 1] + [last];
        CoveredConcat(rd, acc[..n - 1], [last], x);
        CoveredConcat(rd, acc[..n - 1], [joined], x);
        CoveredOne(rd, last, x);
        CoveredOne(rd, s[0], x);
        CoveredOne(rd, joined, x);
        MeetIntoKeys(ops, last, s[0]);
        if Means(rd, last, x) || Means(rd, s[0], x) {
          MeetIntoMeans(rd, ops, last, s[0], x);
        }
        MergeRunsCovers(rd, ops, acc[..n - 1] + [joined], s[1..], keys, x);
      } else {
        CoveredConcat(rd, acc, [s[0]], x);
        MergeRunsCovers(rd, ops, acc + [s[0]], s[1..], keys, x);
      }
    }
  }

  lemma MeetIntoKeys<K, V>(ops: Ops<K, V>, a: Guarded<K, V>, b: Guarded<K, V>)
    requires a.vars.Keys == b.vars.Keys
    ensures MeetInto(ops, a, b).vars.Keys == a.vars.Keys
  {
  }

  lemma EmptyCoversNothing<K, V, X>(rd: Reading<K, V, X>, s: State<K, V>, x: X)
    requires s == []
    ensures !Covered(rd, s, x)
  {
  }

  lemma CollapseStep<K(!new), V(!new), X(!new)>(
    rd: Reading<K, V, X>, ops: Ops<K, V>, a: Guarded<K, V>, b: Guarded<K, V>, x: X)
    requires MergeSound(rd, ops) && a.vars.Keys == b.vars.Keys
    requires Means(rd, a, x) || Means(rd, b, x)
    ensures Means(rd, Guarded(CommonFacts(a.facts, b.facts), Combine(a.vars, b.vars, ops.merge)), x)
  {
    var vars := Combine(a.vars, b.vars, ops.merge);
    forall k | k in vars
      ensures rd.holds(k, vars[k], x)
    {
      assert vars[k] == ops.merge(a.vars[k], b.vars[k]);
    }
  }

  lemma {:induction false} CollapseMeans<K(!new), V(!new), X(!new)>(
    rd: Reading<K, V, X>, ops: Ops<K, V>, acc: Guarded<K, V>, s: State<K, V>, keys: set<K>, x: X)
    requires MergeSound(rd, ops) && acc.vars.Keys == keys && Tracks(s, keys)
    ensures Collapse(ops, acc, s).vars.Keys == keys
    ensures Means(rd, acc, x) || Covered(rd, s, x) ==> Means(rd, Collapse(ops, acc, s), x)
    decreases |s|
  {
    hide Covered, Means, MergeSound, CommonFacts;
    if s == [] {
      EmptyCoversNothing(rd, s, x);
    } else {
      assert s == [s[0]] + s[1..];
      CoveredConcat(rd, [s[0]], s[1..], x);
      CoveredOne(rd, s[0], x);
      var next := Guarded(CommonFacts(acc.facts, s[0].facts), Combine(acc.vars, s[0].vars, ops.merge));
      if Means(rd, acc, x) || Means(rd, s[0], x) {
        CollapseStep(rd, ops, acc, s[0], x);
      }
      CollapseMeans(rd, ops, next, s[1..], keys, x);
    }
  }

  lemma MineLaws<K(!new), V(!new), X(!new)>(
    rd: Reading<K, V, X>, ops: Ops<K, V>, s: State<K, V>, w: Guarded<K, V>, x: X)
    requires MineSound(rd, ops)
    ensures ops.mine(s, w).vars.Keys == w.vars.Keys
    ensures Covered(rd, s, x) && Means(rd, w, x) ==> Means(rd, ops.mine(s, w), x)
  {
  }

  /** Collapsing covers every disjunct, mined information included. */
  lemma WidenCovers<K(!new), V(!new), X(!new)>(rd: Reading<K, V, X>, ops: Ops<K, V>, s: State<K, V>, keys: set<K>, x: X)
    requires OpsSound(rd, ops) && Tracks(s, keys)
    ensures Tracks(Widen(ops, s), keys)
    ensures Covered(rd, s, x) ==> Covered(rd, Widen(ops, s), x)
  {
    hide Covered, Means, MergeSound, MeetSound, MineSound;
    if |s| > 1 {
      var w := Collapse(ops, s[0], s[1..]);
      assert s == [s[0]] + s[1..];
      CoveredConcat(rd, [s[0]], s[1..], x);
      CoveredOne(rd, s[0], x);
      CollapseMeans(rd, ops, s[0], s[1..], keys, x);
      MineLaws(rd, ops, s, w, x);
      CoveredOne(rd, ops.mine(s, w), x);
    }
  }

  /** Normalising loses no concrete state, provided all disjuncts track the same variables. */
  lemma NormalizeCovers<K(!new), V(!new), X(!new)>(rd: Reading<K, V, X>, ops: Ops<K, V>, s: State<K, V>, keys: set<K>, x: X)
    requires Ordered(ops) && OpsSound(rd, ops) && Tracks(s, keys)
    ensures Tracks(Normalize(ops, s), keys)
    ensures Covered(rd, s, x) ==> Covered(rd, Normalize(ops, s), x)
  {
    hide Means, Ordered, MergeSound, MeetSound, MineSound, Widen, MergeRuns, Sort;
    var sorted := Sort(ops, s);
    SortKeepsElements(ops, s);
    forall i | 0 <= i < |sorted|
      ensures sorted[i].vars.Keys == keys
    {
      assert sorted[i] in s;
    }
    if Covered(rd, s, x) {
      var i :| 0 <= i < |s| && Means(rd, s[i], x);
      assert s[i] in sorted;
      var j :| 0 <= j < |sorted| && sorted[j] == s[i];
      CoveredAt(rd, sorted, j, x);
    }
    hide Covered;
    EmptyCoversNothing<K, V, X>(rd, [], x);
    MergeRunsCovers(rd, ops, [], sorted, keys, x);
    WidenCovers(rd, ops, MergeRuns(ops, [], sorted), keys, x);
  }

  /** A join covers both sides. */
  lemma MergeCovers<K(!new), V(!new), X(!new)>(
    rd: Reading<K, V, X>, ops: Ops<K, V>, a: State<K, V>, b: State<K, V>, keys: set<K>, x: X)
    requires Ordered(ops) && OpsSound(rd, ops) && Tracks(a, keys) && Tracks(b, keys)
    ensures Tracks(Merge(ops, a, b), keys)
    ensures Covered(rd, a, x) || Covered(rd, b, x) ==> Covered(rd, Merge(ops, a, b), x)
  {
    hide Covered, Means, OpsSound, Ordered, Normalize;
    CoveredConcat(rd, a, b, x);
    NormalizeCovers(rd, ops, a + b, keys, x);
  }
}
