/**
 How long the worklist can stay busy. For monotone analyses over a lattice of bounded height,
 without widening and without value-selection joins, it drains within a number of visits set
 by the edges of the graph.
 */
module Drain {
  import opened Int64
  import opened Dataflow

  // --- Orders of bounded height ---

  ghost predicate PartialOrder<S(!new)>(le: (S, S) -> bool) {
    && (forall a {:trigger le(a, a)} :: le(a, a))
    && (forall a, b, c {:trigger le(a, b), le(b, c)} :: le(a, b) && le(b, c) ==> le(a, c))
    && (forall a, b {:trigger le(a, b)} :: le(a, b) && le(b, a) ==> a == b)
  }

  /** A strictly rising chain. */
  ghost predicate Climbs<S(!new)>(le: (S, S) -> bool, chain: seq<S>) {
    forall i {:trigger chain[i]} :: 0 < i < |chain| ==> le(chain[i - 1], chain[i]) && chain[i - 1] != chain[i]
  }

  /** No chain has more than h climbs. */
  ghost predicate HeightBound<S(!new)>(le: (S, S) -> bool, h: nat) {
    forall chain :: Climbs(le, chain) ==> |chain| <= h + 1
  }

  ghost predicate ClimbsTo<S(!new)>(le: (S, S) -> bool, s: S, n: nat) {
    exists chain :: Climbs(le, chain) && |chain| == n + 1 && chain[n] == s
  }

  /** The most climbs, n at most, of a chain that ends in s. */
  ghost function RankUpTo<S(!new)>(le: (S, S) -> bool, s: S, n: nat): (r: nat)
    ensures r <= n
  {
    if n == 0 || ClimbsTo(le, s, n) then n else RankUpTo(le, s, n - 1)
  }

  lemma {:induction false} RankLargest<S(!new)>(le: (S, S) -> bool, s: S, n: nat, k: nat)
    requires k <= n && ClimbsTo(le, s, k)
    ensures RankUpTo(le, s, n) >= k
  {
    if n > k && !ClimbsTo(le, s, n) {
      RankLargest(le, s, n - 1, k);
    }
  }

  lemma {:induction false} RankReached<S(!new)>(le: (S, S) -> bool, s: S, n: nat)
    ensures ClimbsTo(le, s, RankUpTo(le, s, n))
  {
    if n > 0 && !ClimbsTo(le, s, n) {
      RankReached(le, s, n - 1);
    } else if n == 0 {
      assert Climbs(le, [s]);
      assert [s][0] == s;
    }
  }

  /** A strict step up raises the rank. */
  lemma RankRises<S(!new)>(le: (S, S) -> bool, h: nat, a: S, b: S)
    requires HeightBound(le, h) && le(a, b) && a != b
    ensures RankUpTo(le, a, h) < RankUpTo(le, b, h)
  {
    var n := RankUpTo(le, a, h);
    RankReached(le, a, h);
    var chain :| Climbs(le, chain) && |chain| == n + 1 && chain[n] == a;
    var longer := chain + [b];
    assert Climbs(le, longer) by {
      forall i | 0 < i < |longer|
        ensures le(longer[i - 1], longer[i]) && longer[i - 1] != longer[i]
      {
        if i <= n {
          assert longer[i] == chain[i] && longer[i - 1] == chain[i - 1];
        }
      }
    }
    assert longer[n + 1] == b;
    assert ClimbsTo(le, b, n + 1);
    RankLargest(le, b, h, n + 1);
  }

  // --- Ranks of several values together ---

  ghost function Pick<K>(keys: set<K>): K
    requires keys != {}
  {
    var k :| k in keys; k
  }

  ghost function RankSum<K(!new), V(!new)>(le: (V, V) -> bool, h: nat, keys: set<K>, vars: map<K, V>): nat
    requires keys <= vars.Keys
  {
    if keys == {} then 0
    else
      var k := Pick(keys);
      RankSum(le, h, keys - {k}, vars) + RankUpTo(le, vars[k], h)
  }

  lemma {:induction false} RankSumBounded<K(!new), V(!new)>(le: (V, V) -> bool, h: nat, keys: set<K>, vars: map<K, V>)
    requires keys <= vars.Keys
    ensures RankSum(le, h, keys, vars) <= Times(|keys|, h)
  {
    if keys != {} {
      var k := Pick(keys);
      RankSumBounded(le, h, keys - {k}, vars);
      assert |keys| * h == (|keys| - 1) * h + h;
    }
  }

  lemma RankNoLower<V(!new)>(le: (V, V) -> bool, h: nat, a: V, b: V)
    requires HeightBound(le, h) && le(a, b)
    ensures RankUpTo(le, a, h) <= RankUpTo(le, b, h)
    ensures a != b ==> RankUpTo(le, a, h) < RankUpTo(le, b, h)
  {
    if a != b {
      RankRises(le, h, a, b);
    }
  }

  /** Values that only rise raise the sum, strictly when one does. */
  lemma {:induction false} RankSumRises<K(!new), V(!new)>(
    le: (V, V) -> bool, h: nat, keys: set<K>, vars: map<K, V>, vars': map<K, V>)
    requires HeightBound(le, h) && keys <= vars.Keys && keys <= vars'.Keys
    requires forall k :: k in keys ==> le(vars[k], vars'[k])
    ensures RankSum(le, h, keys, vars) <= RankSum(le, h, keys, vars')
    ensures (exists k :: k in keys && vars[k] != vars'[k]) ==> RankSum(le, h, keys, vars) < RankSum(le, h, keys, vars')
  {
    hide HeightBound, RankUpTo;
    if keys != {} {
      var k := Pick(keys);
      RankSumRises(le, h, keys - {k}, vars, vars');
      RankNoLower(le, h, vars[k], vars'[k]);
    }
  }

  // --- Monotone analyses ---

  /** merge is the least upper bound, and everything else is monotone. */
  ghost predicate Monotone<S(!new), E(!new), Cond(!new)>(an: Analysis<S, E, Cond>, le: (S, S) -> bool) {
    && (forall a, b {:trigger an.merge(a, b)} :: le(a, an.merge(a, b)) && le(b, an.merge(a, b)))
    && (forall a, b, c {:trigger le(an.merge(a, b), c)} :: le(a, c) && le(b, c) ==> le(an.merge(a, b), c))
    && (forall e, a, b {:trigger an.guard(e, a), an.guard(e, b)} :: le(a, b) ==> le(an.guard(e, a), an.guard(e, b)))
    && (forall e, a, b {:trigger an.transfer(e, a), an.transfer(e, b)} :: le(a, b) ==> le(an.transfer(e, a), an.transfer(e, b)))
    && (an.refine.Some? ==> forall cond, taken, a, b {:trigger an.refine.value(cond, taken, a), an.refine.value(cond, taken, b)} ::
          le(a, b) ==> le(an.refine.value(cond, taken, a), an.refine.value(cond, taken, b)))
  }

  /** No join of the graph restores the state from before a selection. */
  ghost predicate NoRewind<E, Cond>(cfg: Graph<E, Cond>) {
    forall b: BlockId :: b < |cfg.blocks| ==> SelectionHead(cfg, b).None?
  }

  ghost predicate Climbing<S(!new), E(!new), Cond(!new)>(cfg: Graph<E, Cond>, an: Analysis<S, E, Cond>, le: (S, S) -> bool, h: nat) {
    PartialOrder(le) && HeightBound(le, h) && Monotone(an, le) && NoRewind(cfg) && an.widen.None?
  }

  ghost predicate OptionLe<S>(le: (S, S) -> bool, a: Option<S>, b: Option<S>) {
    a.Some? ==> b.Some? && le(a.value, b.value)
  }

  ghost predicate ExitsLe<S>(le: (S, S) -> bool, a: map<BlockId, S>, b: map<BlockId, S>) {
    forall k :: k in a ==> k in b && le(a[k], b[k])
  }

  lemma ContributionMonotone<S(!new), E(!new), Cond(!new)>(
    cfg: Graph<E, Cond>, an: Analysis<S, E, Cond>, le: (S, S) -> bool, x: map<BlockId, S>, y: map<BlockId, S>, p: Option<BlockId>, b: BlockId)
    requires PartialOrder(le) && Monotone(an, le) && ExitsLe(le, x, y) && (p.Some? ==> p.value < |cfg.blocks|)
    ensures OptionLe(le, Contribution(cfg, an, x, p, b), Contribution(cfg, an, y, p, b))
  {
    var r := Contribution(cfg, an, x, p, b);
    if r.Some? {
      var from := cfg.blocks[p.value];
      var s, s' := x[p.value], y[p.value];
      if from.cond.Some? {
        var (leaf, flip) := an.edgeCondition(from.cond.value);
        var taken := (|from.succs| == 2 && from.succs[0] == Some(b)) != flip;
        RefineMonotone(an, le, leaf, taken, s, s');
      }
    }
  }

  lemma RefineMonotone<S(!new), E(!new), Cond(!new)>(
    an: Analysis<S, E, Cond>, le: (S, S) -> bool, cond: Cond, taken: bool, a: S, b: S)
    requires Monotone(an, le) && le(a, b)
    ensures le(Refine(an, cond, taken, a), Refine(an, cond, taken, b))
  {
    if an.refine.Some? {
      var r, r' := an.refine.value(cond, taken, a), an.refine.value(cond, taken, b);
    }
  }

  lemma MergeIntoMonotone<S(!new), E(!new), Cond(!new)>(
    an: Analysis<S, E, Cond>, le: (S, S) -> bool, acc: Option<S>, acc': Option<S>, next: Option<S>, next': Option<S>)
    requires PartialOrder(le) && Monotone(an, le) && OptionLe(le, acc, acc') && OptionLe(le, next, next')
    ensures OptionLe(le, MergeInto(an, acc, next), MergeInto(an, acc', next'))
  {
    if acc'.Some? && next'.Some? {
      var m := an.merge(acc'.value, next'.value);
      assert le(acc'.value, m) && le(next'.value, m);
    }
  }

  lemma {:induction false} MergedPredsMonotone<S(!new), E(!new), Cond(!new)>(
    cfg: Graph<E, Cond>, an: Analysis<S, E, Cond>, le: (S, S) -> bool, x: map<BlockId, S>, y: map<BlockId, S>, b: BlockId, n: nat)
    requires PartialOrder(le) && Monotone(an, le) && ExitsLe(le, x, y) && b < |cfg.blocks| && n <= |cfg.blocks[b].preds|
    ensures OptionLe(le, MergedPreds(cfg, an, x, b, n), MergedPreds(cfg, an, y, b, n))
  {
    hide PartialOrder, Monotone, ExitsLe, OptionLe, Contribution, MergeInto;
    if n == 0 {
      NoneLe(le, MergedPreds(cfg, an, x, b, 0), MergedPreds(cfg, an, y, b, 0));
    } else {
      var p := cfg.blocks[b].preds[n - 1];
      assert p in cfg.blocks[b].preds;
      MergedPredsMonotone(cfg, an, le, x, y, b, n - 1);
      ContributionMonotone(cfg, an, le, x, y, p, b);
      MergeIntoMonotone(an, le, MergedPreds(cfg, an, x, b, n - 1), MergedPreds(cfg, an, y, b, n - 1),
                        Contribution(cfg, an, x, p, b), Contribution(cfg, an, y, p, b));
    }
  }

  lemma NoneLe<S>(le: (S, S) -> bool, a: Option<S>, b: Option<S>)
    requires a.None?
    ensures OptionLe(le, a, b)
  {
  }

  /** More at the exits means more at the entry; the entry block's own entry never changes. */
  lemma EntryMonotone<S(!new), E(!new), Cond(!new)>(
    cfg: Graph<E, Cond>, an: Analysis<S, E, Cond>, le: (S, S) -> bool, x: map<BlockId, S>, y: map<BlockId, S>, b: BlockId)
    requires PartialOrder(le) && Monotone(an, le) && NoRewind(cfg) && ExitsLe(le, x, y) && b < |cfg.blocks|
    requires ComputeEntry(cfg, an, x, b).hasPreds || b == cfg.entry
    ensures var r, r' := ComputeEntry(cfg, an, x, b), ComputeEntry(cfg, an, y, b);
            (r'.hasPreds || b == cfg.entry) && le(r.state, r'.state)
  {
    hide Monotone, ExitsLe, MergedPreds;
    if b == cfg.entry {
      EntryBlockState(cfg, an, x);
      EntryBlockState(cfg, an, y);
    } else {
      MergedPredsMonotone(cfg, an, le, x, y, b, |cfg.blocks[b].preds|);
    }
  }

  lemma EntryBlockState<S, E, Cond>(cfg: Graph<E, Cond>, an: Analysis<S, E, Cond>, x: map<BlockId, S>)
    ensures ComputeEntry(cfg, an, x, cfg.entry) == Entry(an.initial, false)
  {
  }

  lemma {:induction false} TransferredMonotone<S(!new), E(!new), Cond(!new)>(
    an: Analysis<S, E, Cond>, le: (S, S) -> bool, elems: seq<E>, a: S, b: S)
    requires Monotone(an, le) && le(a, b)
    ensures var r, r' := Transferred(an, elems, a), Transferred(an, elems, b);
            (r.Some? <==> r'.Some?) && (r.Some? ==> le(r.value, r'.value))
  {
    if elems != [] && !an.fatal(elems[0]) {
      var x, y := an.guard(elems[0], a), an.guard(elems[0], b);
      TransferredMonotone(an, le, elems[1..], an.transfer(elems[0], x), an.transfer(elems[0], y));
    }
  }

  // --- What a visit does to the exits ---

  /** Every recorded exit is at most what visiting the block again would record. */
  ghost predicate Lagging<S(!new), E(!new), Cond(!new)>(
    cfg: Graph<E, Cond>, an: Analysis<S, E, Cond>, le: (S, S) -> bool, exits: map<BlockId, S>)
  {
    forall b :: b in exits ==> b < |cfg.blocks| && Lags(cfg, an, le, exits, b, exits[b])
  }

  ghost predicate Lags<S(!new), E(!new), Cond(!new)>(
    cfg: Graph<E, Cond>, an: Analysis<S, E, Cond>, le: (S, S) -> bool, exits: map<BlockId, S>, b: BlockId, s: S)
    requires b < |cfg.blocks|
  {
    var entry := ComputeEntry(cfg, an, exits, b);
    var exit := ExitOf(an, cfg.blocks[b], entry.state);
    (entry.hasPreds || b == cfg.entry) && exit.Some? && le(s, exit.value)
  }

  lemma LagsGrows<S(!new), E(!new), Cond(!new)>(
    cfg: Graph<E, Cond>, an: Analysis<S, E, Cond>, le: (S, S) -> bool, h: nat, x: map<BlockId, S>, y: map<BlockId, S>, b: BlockId, s: S)
    requires Climbing(cfg, an, le, h) && ExitsLe(le, x, y) && b < |cfg.blocks| && Lags(cfg, an, le, x, b, s)
    ensures Lags(cfg, an, le, y, b, s)
  {
    var e, e' := ComputeEntry(cfg, an, x, b).state, ComputeEntry(cfg, an, y, b).state;
    EntryMonotone(cfg, an, le, x, y, b);
    TransferredMonotone(an, le, cfg.blocks[b].elems, e, e');
    hide Monotone, NoRewind, HeightBound, ComputeEntry, Transferred;
  }

  /** The exit recorded by a visit is at least the one before it, and all exits keep lagging. */
  lemma RecordKeepsLagging<S(!new), E(!new), Cond(!new)>(
    cfg: Graph<E, Cond>, an: Analysis<S, E, Cond>, le: (S, S) -> bool, h: nat, exits: map<BlockId, S>, b: BlockId, s: S)
    requires Climbing(cfg, an, le, h) && Lagging(cfg, an, le, exits) && b < |cfg.blocks|
    requires ComputeEntry(cfg, an, exits, b).hasPreds || b == cfg.entry
    requires ExitOf(an, cfg.blocks[b], ComputeEntry(cfg, an, exits, b).state) == Some(s)
    ensures (b in exits ==> le(exits[b], s)) && Lagging(cfg, an, le, exits[b := s])
  {
    hide HeightBound, Monotone, NoRewind, ComputeEntry, ExitOf;
    var next := exits[b := s];
    assert Lags(cfg, an, le, exits, b, s);
    assert ExitsLe(le, exits, next);
    hide PartialOrder;
    forall k | k in next
      ensures k < |cfg.blocks| && Lags(cfg, an, le, next, k, next[k])
    {
      LagsGrows(cfg, an, le, h, exits, next, k, next[k]);
    }
  }

  // --- Potential: pending visits, and those that changes can still cause ---

  /** How often the exit of each block can still change. */
  type Left = BlockId -> nat

  function Times(x: nat, y: nat): nat {
    x * y
  }

  function Pending<E, Cond>(cfg: Graph<E, Cond>, left: Left, n: nat): nat
    requires n <= |cfg.blocks|
  {
    if n == 0 then 0 else Pending(cfg, left, n - 1) + Times(|cfg.blocks[n - 1].succs|, left(n - 1))
  }

  /** Each edge can be used once for every change of the block it leaves. */
  function EdgeBudget<E, Cond>(cfg: Graph<E, Cond>, h: nat, n: nat): nat
    requires n <= |cfg.blocks|
  {
    if n == 0 then 0 else EdgeBudget(cfg, h, n - 1) + Times(|cfg.blocks[n - 1].succs|, h + 1)
  }

  lemma {:induction false} PendingAtStart<E, Cond>(cfg: Graph<E, Cond>, left: Left, h: nat, n: nat)
    requires n <= |cfg.blocks| && forall b: BlockId :: left(b) == h + 1
    ensures Pending(cfg, left, n) == EdgeBudget(cfg, h, n)
  {
    if n > 0 {
      PendingAtStart(cfg, left, h, n - 1);
    }
  }

  lemma {:induction false} PendingSame<E, Cond>(cfg: Graph<E, Cond>, left: Left, left': Left, n: nat)
    requires n <= |cfg.blocks| && forall k: BlockId :: left'(k) == left(k)
    ensures Pending(cfg, left', n) == Pending(cfg, left, n)
  {
    if n > 0 {
      PendingSame(cfg, left, left', n - 1);
    }
  }

  lemma {:induction false} PendingFalls<E, Cond>(cfg: Graph<E, Cond>, left: Left, left': Left, b: BlockId, n: nat)
    requires n <= |cfg.blocks| && b < |cfg.blocks| && left'(b) < left(b) && forall k: BlockId :: k != b ==> left'(k) == left(k)
    ensures Pending(cfg, left', n) + (if b < n then |cfg.blocks[b].succs| else 0) <= Pending(cfg, left, n)
  {
    if n > 0 {
      PendingFalls(cfg, left, left', b, n - 1);
      if b == n - 1 {
        Scaled(|cfg.blocks[b].succs|, left'(b), left(b));
      }
    }
  }

  lemma Scaled(d: nat, x: nat, y: nat)
    requires x < y
    ensures Times(d, x) + d <= Times(d, y)
  {
    var k := y - x - 1;
    assert y == x + 1 + k;
    assert d * y == d * x + d * (1 + k);
    assert d * (1 + k) == d + d * k;
    assert d * k >= 0;
  }

  lemma {:induction false} EnqueuedLength(worklist: seq<BlockId>, succs: seq<Option<BlockId>>)
    ensures |Enqueued(worklist, succs)| <= |worklist| + |succs|
    decreases |succs|
  {
    if succs != [] {
      var next := succs[0];
      EnqueuedLength(if next.None? || next.value in worklist then worklist else worklist + [next.value], succs[1..]);
    }
  }

  ghost function Potential<S, E, Cond>(cfg: Graph<E, Cond>, left: Left, eng: Engine<S>): nat {
    |eng.worklist| + Pending(cfg, left, |cfg.blocks|)
  }

  /** A visit that queues nothing, or pays for what it queues with one of its block's changes, uses up potential. */
  lemma VisitSpends<S, E, Cond>(cfg: Graph<E, Cond>, left: Left, left': Left, eng: Engine<S>, next: Engine<S>)
    requires eng.worklist != [] && eng.worklist[0] < |cfg.blocks|
    requires var b, rest := eng.worklist[0], eng.worklist[1..];
             || (next.worklist == rest && forall k: BlockId :: left'(k) == left(k))
             || ((next.worklist == rest || next.worklist == Enqueued(rest, cfg.blocks[b].succs))
                 && left'(b) < left(b) && forall k: BlockId :: k != b ==> left'(k) == left(k))
    ensures Potential(cfg, left', next) < Potential(cfg, left, eng)
  {
    hide Enqueued, Pending;
    var b, rest := eng.worklist[0], eng.worklist[1..];
    EnqueuedLength(rest, cfg.blocks[b].succs);
    if forall k: BlockId :: left'(k) == left(k) {
      PendingSame(cfg, left, left', |cfg.blocks|);
    } else {
      PendingFalls(cfg, left, left', b, |cfg.blocks|);
    }
  }

  /** When every visit keeps an invariant and uses up potential, the worklist drains within the potential. */
  lemma {:induction false} DrainsByPotential<S(!new), E(!new), Cond(!new)>(
    cfg: Graph<E, Cond>, an: Analysis<S, E, Cond>, inv: Engine<S> -> bool, potential: Engine<S> -> nat, eng: Engine<S>, limit: nat)
    requires QueueOk(eng.worklist, |cfg.blocks|) && inv(eng) && potential(eng) <= limit
    requires forall e: Engine<S> {:trigger Visit(cfg, an, e)} :: e.worklist != [] && QueueOk(e.worklist, |cfg.blocks|) && inv(e) ==>
               inv(Visit(cfg, an, e)) && potential(Visit(cfg, an, e)) < potential(e)
    ensures Iterate(cfg, an, eng, limit).worklist == []
    decreases limit
  {
    hide QueueOk, Visit;
    if eng.worklist != [] {
      VisitKeepsQueue(cfg, an, eng);
      var next := Visit(cfg, an, eng);
      assert potential(next) < potential(eng);
      DrainsByPotential(cfg, an, inv, potential, next, limit - 1);
    }
  }

  // --- The bound for monotone analyses ---

  ghost function ChangesLeft<S(!new)>(le: (S, S) -> bool, h: nat, exits: map<BlockId, S>): Left {
    b => if b in exits then h - RankUpTo(le, exits[b], h) else h + 1
  }

  /** Every visit keeps the exits lagging and uses up potential. */
  lemma VisitUsesPotential<S(!new), E(!new), Cond(!new)>(
    cfg: Graph<E, Cond>, an: Analysis<S, E, Cond>, le: (S, S) -> bool, h: nat, eng: Engine<S>)
    requires Climbing(cfg, an, le, h) && Lagging(cfg, an, le, eng.exits)
    requires eng.worklist != [] && QueueOk(eng.worklist, |cfg.blocks|)
    ensures var r := Visit(cfg, an, eng);
            && Lagging(cfg, an, le, r.exits)
            && Potential(cfg, ChangesLeft(le, h, r.exits), r) < Potential(cfg, ChangesLeft(le, h, eng.exits), eng)
  {
    hide Lagging, HeightBound, PartialOrder, Monotone, NoRewind, ComputeEntry, ExitOf, Potential, Enqueued, QueueOk;
    var b, rest := eng.worklist[0], eng.worklist[1..];
    FrontLeaves(eng.worklist, |cfg.blocks|);
    var entry := ComputeEntry(cfg, an, eng.exits, b);
    var exit := ExitOf(an, cfg.blocks[b], entry.state);
    if (entry.hasPreds || b == cfg.entry) && exit.Some? && !(b in eng.exits && eng.exits[b] == exit.value) {
      RecordKeepsLagging(cfg, an, le, h, eng.exits, b, exit.value);
      if b in eng.exits {
        RankRises(le, h, eng.exits[b], exit.value);
      }
    }
    var r := Visit(cfg, an, eng);
    VisitSpends(cfg, ChangesLeft(le, h, eng.exits), ChangesLeft(le, h, r.exits), eng, r);
  }

  /** The uncapped worklist drains within one visit and h + 1 visits for every edge. */
  lemma WorklistDrains<S(!new), E(!new), Cond(!new)>(
    cfg: Graph<E, Cond>, an: Analysis<S, E, Cond>, le: (S, S) -> bool, h: nat, limit: nat)
    requires Climbing(cfg, an, le, h) && limit >= 1 + EdgeBudget(cfg, h, |cfg.blocks|)
    ensures Iterate(cfg, an, Start(cfg), limit).worklist == []
  {
    hide Climbing, Lagging, QueueOk, Visit, Potential, ChangesLeft;
    var inv := (e: Engine<S>) => Lagging(cfg, an, le, e.exits);
    var potential := (e: Engine<S>) => Potential(cfg, ChangesLeft(le, h, e.exits), e);
    forall e: Engine<S> | e.worklist != [] && QueueOk(e.worklist, |cfg.blocks|) && inv(e)
      ensures inv(Visit(cfg, an, e)) && potential(Visit(cfg, an, e)) < potential(e)
    {
      VisitUsesPotential(cfg, an, le, h, e);
    }
    StartPotential<S, E, Cond>(cfg, le, h);
    assert Lagging(cfg, an, le, map[]) by {
      NothingLags(cfg, an, le);
    }
    DrainsByPotential(cfg, an, inv, potential, Start(cfg), limit);
  }

  lemma NothingLags<S(!new), E(!new), Cond(!new)>(cfg: Graph<E, Cond>, an: Analysis<S, E, Cond>, le: (S, S) -> bool)
    ensures Lagging(cfg, an, le, map[])
  {
  }

  lemma StartPotential<S(!new), E, Cond>(cfg: Graph<E, Cond>, le: (S, S) -> bool, h: nat)
    ensures QueueOk(Start<S, E, Cond>(cfg).worklist, |cfg.blocks|)
    ensures Potential(cfg, ChangesLeft<S>(le, h, map[]), Start<S, E, Cond>(cfg)) == 1 + EdgeBudget(cfg, h, |cfg.blocks|)
  {
    PendingAtStart(cfg, ChangesLeft<S>(le, h, map[]), h, |cfg.blocks|);
  }

  /** The coded cap suffices when it is no smaller than that bound. */
  lemma ConvergesWithinCap<S(!new), E(!new), Cond(!new)>(cfg: Graph<E, Cond>, an: Analysis<S, E, Cond>, le: (S, S) -> bool, h: nat)
    requires Climbing(cfg, an, le, h) && 1 + EdgeBudget(cfg, h, |cfg.blocks|) <= |cfg.blocks| * (an.latticeHeight + 2)
    ensures Solve(cfg, an).converged
  {
    WorklistDrains(cfg, an, le, h, MaxIterations(cfg, an));
  }

  // --- What a drained worklist has computed ---

  /** The flow equation of b: what its exit should be, given all exits. */
  function Flow<S(==), E, Cond>(cfg: Graph<E, Cond>, an: Analysis<S, E, Cond>, exits: map<BlockId, S>, b: BlockId): Option<S>
    requires b < |cfg.blocks|
  {
    var entry := ComputeEntry(cfg, an, exits, b);
    if !entry.hasPreds && b != cfg.entry then None else ExitOf(an, cfg.blocks[b], entry.state)
  }

  function Recorded<S>(exits: map<BlockId, S>, b: BlockId): Option<S> {
    if b in exits then Some(exits[b]) else None
  }

  /** Every exit is exactly what its flow equation asks for. */
  ghost predicate Solves<S(!new), E(!new), Cond(!new)>(cfg: Graph<E, Cond>, an: Analysis<S, E, Cond>, exits: map<BlockId, S>) {
    forall b: BlockId :: b < |cfg.blocks| ==> Recorded(exits, b) == Flow(cfg, an, exits, b)
  }

  /** Every exit is at least what its flow equation asks for. */
  ghost predicate Above<S(!new), E(!new), Cond(!new)>(
    cfg: Graph<E, Cond>, an: Analysis<S, E, Cond>, le: (S, S) -> bool, exits: map<BlockId, S>)
  {
    forall b: BlockId :: b < |cfg.blocks| ==> OptionLe(le, Flow(cfg, an, exits, b), Recorded(exits, b))
  }

  /** Blocks that are not queued satisfy their equation. */
  ghost predicate SettledBut<S(!new), E(!new), Cond(!new)>(
    cfg: Graph<E, Cond>, an: Analysis<S, E, Cond>, exits: map<BlockId, S>, worklist: seq<BlockId>)
  {
    forall b: BlockId :: b < |cfg.blocks| && b !in worklist ==> Recorded(exits, b) == Flow(cfg, an, exits, b)
  }

  lemma {:induction false} MergedPredsUnaffected<S(!new), E(!new), Cond(!new)>(
    cfg: Graph<E, Cond>, an: Analysis<S, E, Cond>, exits: map<BlockId, S>, c: BlockId, s: S, b: BlockId, n: nat)
    requires b < |cfg.blocks| && n <= |cfg.blocks[b].preds| && Some(c) !in cfg.blocks[b].preds
    ensures MergedPreds(cfg, an, exits[c := s], b, n) == MergedPreds(cfg, an, exits, b, n)
  {
    hide MergeInto;
    if n > 0 {
      assert cfg.blocks[b].preds[n - 1] in cfg.blocks[b].preds;
      MergedPredsUnaffected(cfg, an, exits, c, s, b, n - 1);
    }
  }

  /** Only its predecessors' exits matter to a block. */
  lemma FlowUnaffected<S(!new), E(!new), Cond(!new)>(
    cfg: Graph<E, Cond>, an: Analysis<S, E, Cond>, exits: map<BlockId, S>, c: BlockId, s: S, b: BlockId)
    requires NoRewind(cfg) && b < |cfg.blocks| && Some(c) !in cfg.blocks[b].preds
    ensures Flow(cfg, an, exits[c := s], b) == Flow(cfg, an, exits, b)
  {
    hide MergedPreds, ExitOf;
    MergedPredsUnaffected(cfg, an, exits, c, s, b, |cfg.blocks[b].preds|);
  }

  lemma SuccessorIsPredecessor<E, Cond>(cfg: Graph<E, Cond>, c: BlockId, b: BlockId)
    requires b < |cfg.blocks| && c < |cfg.blocks| && Some(c) in cfg.blocks[b].preds
    ensures Some(b) in cfg.blocks[c].succs
  {
  }

  lemma VisitKeepsSettled<S(!new), E(!new), Cond(!new)>(
    cfg: Graph<E, Cond>, an: Analysis<S, E, Cond>, le: (S, S) -> bool, h: nat, eng: Engine<S>)
    requires Climbing(cfg, an, le, h) && Lagging(cfg, an, le, eng.exits) && SettledBut(cfg, an, eng.exits, eng.worklist)
    requires eng.worklist != [] && QueueOk(eng.worklist, |cfg.blocks|)
    ensures SettledBut(cfg, an, Visit(cfg, an, eng).exits, Visit(cfg, an, eng).worklist)
  {
    hide HeightBound, PartialOrder, Monotone, NoRewind, ComputeEntry, ExitOf, Enqueued, QueueOk;
    var b, rest, r := eng.worklist[0], eng.worklist[1..], Visit(cfg, an, eng);
    FrontLeaves(eng.worklist, |cfg.blocks|);
    var exit := Flow(cfg, an, eng.exits, b);
    SuccessorsInGraph(cfg, b);
    EnqueuedExact(rest, cfg.blocks[b].succs, |cfg.blocks|);
    forall k: BlockId | k < |cfg.blocks| && k !in r.worklist
      ensures Recorded(r.exits, k) == Flow(cfg, an, r.exits, k)
    {
      assert b in eng.exits ==> Lags(cfg, an, le, eng.exits, b, eng.exits[b]);
      if r.exits != eng.exits {
        if Some(b) in cfg.blocks[k].preds {
          SuccessorIsPredecessor(cfg, b, k);
        }
        FlowUnaffected(cfg, an, eng.exits, b, exit.value, k);
      }
    }
  }

  lemma FlowMonotone<S(!new), E(!new), Cond(!new)>(
    cfg: Graph<E, Cond>, an: Analysis<S, E, Cond>, le: (S, S) -> bool, x: map<BlockId, S>, y: map<BlockId, S>, b: BlockId)
    requires PartialOrder(le) && Monotone(an, le) && NoRewind(cfg) && ExitsLe(le, x, y) && b < |cfg.blocks|
    ensures OptionLe(le, Flow(cfg, an, x, b), Flow(cfg, an, y, b))
  {
    if Flow(cfg, an, x, b).Some? {
      EntryMonotone(cfg, an, le, x, y, b);
      TransferredMonotone(an, le, cfg.blocks[b].elems, ComputeEntry(cfg, an, x, b).state, ComputeEntry(cfg, an, y, b).state);
      hide Monotone, PartialOrder, NoRewind, ComputeEntry, Transferred;
    }
  }

  /** A visit stays below every solution. */
  lemma VisitStaysBelow<S(!new), E(!new), Cond(!new)>(
    cfg: Graph<E, Cond>, an: Analysis<S, E, Cond>, le: (S, S) -> bool, h: nat, eng: Engine<S>, y: map<BlockId, S>)
    requires Climbing(cfg, an, le, h) && Above(cfg, an, le, y) && ExitsLe(le, eng.exits, y)
    requires eng.worklist != [] && QueueOk(eng.worklist, |cfg.blocks|)
    ensures ExitsLe(le, Visit(cfg, an, eng).exits, y)
  {
    hide Monotone, NoRewind, HeightBound, ComputeEntry, ExitOf;
    var b := eng.worklist[0];
    FrontLeaves(eng.worklist, |cfg.blocks|);
    FlowMonotone(cfg, an, le, eng.exits, y, b);
    assert OptionLe(le, Flow(cfg, an, y, b), Recorded(y, b));
  }

  lemma {:induction false} IterateSolves<S(!new), E(!new), Cond(!new)>(
    cfg: Graph<E, Cond>, an: Analysis<S, E, Cond>, le: (S, S) -> bool, h: nat, eng: Engine<S>, limit: nat, y: map<BlockId, S>)
    requires Climbing(cfg, an, le, h) && Lagging(cfg, an, le, eng.exits) && QueueOk(eng.worklist, |cfg.blocks|)
    requires SettledBut(cfg, an, eng.exits, eng.worklist)
    ensures var r := Iterate(cfg, an, eng, limit);
            && SettledBut(cfg, an, r.exits, r.worklist)
            && (Above(cfg, an, le, y) && ExitsLe(le, eng.exits, y) ==> ExitsLe(le, r.exits, y))
    decreases limit
  {
    hide Lagging, Climbing, QueueOk, Visit, SettledBut, Above, ExitsLe;
    if eng.worklist != [] && limit > 0 {
      VisitKeepsQueue(cfg, an, eng);
      VisitUsesPotential(cfg, an, le, h, eng);
      VisitKeepsSettled(cfg, an, le, h, eng);
      if Above(cfg, an, le, y) && ExitsLe(le, eng.exits, y) {
        VisitStaysBelow(cfg, an, le, h, eng, y);
      }
      IterateSolves(cfg, an, le, h, Visit(cfg, an, eng), limit - 1, y);
    }
  }

  /**
   For such analyses, a converged run has computed the least solution of the flow equations:
   the result is independent of the order in which blocks are taken.
   */
  lemma ConvergedIsLeastSolution<S(!new), E(!new), Cond(!new)>(
    cfg: Graph<E, Cond>, an: Analysis<S, E, Cond>, le: (S, S) -> bool, h: nat, y: map<BlockId, S>)
    requires Climbing(cfg, an, le, h) && Solve(cfg, an).converged
    ensures Solves(cfg, an, Solve(cfg, an).exits)
    ensures Above(cfg, an, le, y) ==> ExitsLe(le, Solve(cfg, an).exits, y)
  {
    hide Climbing, Above, Flow;
    assert QueueOk([cfg.entry], |cfg.blocks|);
    StartSettled(cfg, an);
    assert Lagging(cfg, an, le, map[]);
    assert ExitsLe(le, map[], y);
    IterateSolves(cfg, an, le, h, Start(cfg), MaxIterations(cfg, an), y);
  }

  lemma StartSettled<S(!new), E(!new), Cond(!new)>(cfg: Graph<E, Cond>, an: Analysis<S, E, Cond>)
    ensures SettledBut(cfg, an, map[], [cfg.entry])
  {
    forall b: BlockId | b < |cfg.blocks| && b !in [cfg.entry]
      ensures Flow(cfg, an, map[], b).None?
    {
      assert b != cfg.entry by {
        assert cfg.entry in [cfg.entry];
      }
      NothingMerged(cfg, an, b, |cfg.blocks[b].preds|);
    }
  }

  lemma {:induction false} NothingMerged<S(!new), E(!new), Cond(!new)>(cfg: Graph<E, Cond>, an: Analysis<S, E, Cond>, b: BlockId, n: nat)
    requires b < |cfg.blocks| && n <= |cfg.blocks[b].preds|
    ensures MergedPreds(cfg, an, map[], b, n).None?
  {
    if n > 0 {
      assert cfg.blocks[b].preds[n - 1] in cfg.blocks[b].preds;
      NothingMerged(cfg, an, b, n - 1);
    }
  }
}
