/**
 How delayed widening with memory makes the worklist drain: no monotonicity, any graph, the
 selection rewind included. Once a block widens, its exit changes only when its memory climbs,
 and before that no more often than the exits of its predecessors bring it back.
 */
module WideningDrain {
  import opened Int64
  import opened Dataflow
  import opened Drain

  /** The states the laws speak about, the widened ones among them, and how far those have climbed. */
  datatype Ladder<!S> = Ladder(ok: S -> bool, flat: S -> bool, rank: S -> nat, top: nat)

  ghost predicate Occurs<E, Cond>(cfg: Graph<E, Cond>, e: E) {
    exists b: BlockId :: b < |cfg.blocks| && e in cfg.blocks[b].elems
  }

  /** Some branch of the graph is refined by the condition. */
  ghost predicate Tested<S, E, Cond>(cfg: Graph<E, Cond>, an: Analysis<S, E, Cond>, cond: Cond) {
    exists b: BlockId :: b < |cfg.blocks| && cfg.blocks[b].cond.Some? && an.edgeCondition(cfg.blocks[b].cond.value).0 == cond
  }

  /** Every operation, on what the graph contains, keeps the states ok. */
  ghost predicate KeepsOk<S(!new), E(!new), Cond(!new)>(cfg: Graph<E, Cond>, an: Analysis<S, E, Cond>, l: Ladder<S>) {
    && l.ok(an.initial)
    && (forall a, b {:trigger an.merge(a, b)} :: l.ok(a) && l.ok(b) ==> l.ok(an.merge(a, b)))
    && (forall e, s {:trigger an.guard(e, s)} :: Occurs(cfg, e) && l.ok(s) ==> l.ok(an.guard(e, s)))
    && (forall e, s {:trigger an.transfer(e, s)} :: Occurs(cfg, e) && l.ok(s) ==> l.ok(an.transfer(e, s)))
    && (an.refine.Some? ==> forall cond, taken, s {:trigger an.refine.value(cond, taken, s)} ::
          Tested(cfg, an, cond) && l.ok(s) ==> l.ok(an.refine.value(cond, taken, s)))
    && (an.widen.Some? ==> forall s {:trigger an.widen.value(s)} :: l.ok(s) ==> l.ok(an.widen.value(s)))
  }

  /** Widening gives flat states, and widening a merge with a flat state changes nothing or climbs. */
  ghost predicate Stabilises<S(!new), E(!new), Cond(!new)>(cfg: Graph<E, Cond>, an: Analysis<S, E, Cond>, l: Ladder<S>) {
    && an.widen.Some? && KeepsOk(cfg, an, l)
    && (forall s {:trigger an.widen.value(s)} :: l.ok(s) ==> l.flat(an.widen.value(s)) && l.rank(an.widen.value(s)) <= l.top)
    && (forall a, s {:trigger an.merge(a, s)} :: l.ok(a) && l.flat(a) && l.ok(s) ==>
          var w := an.widen.value(an.merge(a, s)); w == a || l.rank(w) > l.rank(a))
  }

  lemma StabilisesBy<S(!new), E(!new), Cond(!new)>(cfg: Graph<E, Cond>, an: Analysis<S, E, Cond>, l: Ladder<S>)
    requires an.widen.Some? && KeepsOk(cfg, an, l)
    requires forall s {:trigger an.widen.value(s)} :: l.ok(s) ==> l.flat(an.widen.value(s)) && l.rank(an.widen.value(s)) <= l.top
    requires forall a, s {:trigger an.merge(a, s)} :: l.ok(a) && l.flat(a) && l.ok(s) ==>
               var w := an.widen.value(an.merge(a, s)); w == a || l.rank(w) > l.rank(a)
    ensures Stabilises(cfg, an, l)
  {
    hide KeepsOk;
  }

  lemma ContributionKeepsOk<S(!new), E(!new), Cond(!new)>(
    cfg: Graph<E, Cond>, an: Analysis<S, E, Cond>, l: Ladder<S>, exits: map<BlockId, S>, p: Option<BlockId>, b: BlockId)
    requires KeepsOk(cfg, an, l) && (forall k :: k in exits ==> l.ok(exits[k])) && (p.Some? ==> p.value < |cfg.blocks|)
    ensures var s := Contribution(cfg, an, exits, p, b); s.Some? ==> l.ok(s.value)
  {
    if Contribution(cfg, an, exits, p, b).Some? {
      var from := cfg.blocks[p.value];
      if from.cond.Some? {
        var (leaf, flip) := an.edgeCondition(from.cond.value);
        assert Tested(cfg, an, leaf);
        RefineKeepsOk(cfg, an, l, leaf, (|from.succs| == 2 && from.succs[0] == Some(b)) != flip, exits[p.value]);
      }
    }
  }

  lemma RefineKeepsOk<S(!new), E(!new), Cond(!new)>(
    cfg: Graph<E, Cond>, an: Analysis<S, E, Cond>, l: Ladder<S>, cond: Cond, taken: bool, s: S)
    requires KeepsOk(cfg, an, l) && l.ok(s) && Tested(cfg, an, cond)
    ensures l.ok(Refine(an, cond, taken, s))
  {
    if an.refine.Some? {
      var r := an.refine.value(cond, taken, s);
    }
  }

  lemma {:induction false} MergedPredsKeepOk<S(!new), E(!new), Cond(!new)>(
    cfg: Graph<E, Cond>, an: Analysis<S, E, Cond>, l: Ladder<S>, exits: map<BlockId, S>, b: BlockId, n: nat)
    requires KeepsOk(cfg, an, l) && forall k :: k in exits ==> l.ok(exits[k])
    requires b < |cfg.blocks| && n <= |cfg.blocks[b].preds|
    ensures var s := MergedPreds(cfg, an, exits, b, n); s.Some? ==> l.ok(s.value)
  {
    hide Contribution;
    if n > 0 {
      var p := cfg.blocks[b].preds[n - 1];
      assert p in cfg.blocks[b].preds;
      MergedPredsKeepOk(cfg, an, l, exits, b, n - 1);
      ContributionKeepsOk(cfg, an, l, exits, p, b);
    }
  }

  lemma EntryKeepsOk<S(!new), E(!new), Cond(!new)>(
    cfg: Graph<E, Cond>, an: Analysis<S, E, Cond>, l: Ladder<S>, exits: map<BlockId, S>, b: BlockId)
    requires KeepsOk(cfg, an, l) && (forall k :: k in exits ==> l.ok(exits[k])) && b < |cfg.blocks|
    ensures l.ok(ComputeEntry(cfg, an, exits, b).state)
  {
    MergedPredsKeepOk(cfg, an, l, exits, b, |cfg.blocks[b].preds|);
    hide MergedPreds, Refine;
  }

  lemma {:induction false} TransferredKeepsOk<S(!new), E(!new), Cond(!new)>(
    cfg: Graph<E, Cond>, an: Analysis<S, E, Cond>, l: Ladder<S>, elems: seq<E>, s: S)
    requires KeepsOk(cfg, an, l) && l.ok(s) && forall e :: e in elems ==> Occurs(cfg, e)
    ensures Transferred(an, elems, s).Some? ==> l.ok(Transferred(an, elems, s).value)
  {
    hide Occurs;
    if elems != [] && !an.fatal(elems[0]) {
      assert elems[0] in elems;
      TransferredKeepsOk(cfg, an, l, elems[1..], an.transfer(elems[0], an.guard(elems[0], s)));
    }
  }

  // --- The invariant of the loop ---

  function WidenAfter<S, E, Cond>(an: Analysis<S, E, Cond>): nat {
    an.latticeHeight + 2
  }

  /** A block that widens has recorded the exit of its memory; the others have visits to spare. */
  ghost predicate Remembers<S, E, Cond>(cfg: Graph<E, Cond>, an: Analysis<S, E, Cond>, l: Ladder<S>, eng: Engine<S>, b: BlockId)
    requires b < |cfg.blocks|
  {
    if b in eng.memory then
      && l.ok(eng.memory[b]) && l.flat(eng.memory[b]) && l.rank(eng.memory[b]) <= l.top
      && VisitCount(eng.visits, b) > WidenAfter(an)
      && var exit := ExitOf(an, cfg.blocks[b], eng.memory[b]);
         exit.Some? ==> b in eng.exits && eng.exits[b] == exit.value
    else VisitCount(eng.visits, b) <= WidenAfter(an)
  }

  ghost predicate Remembering<S(!new), E(!new), Cond(!new)>(
    cfg: Graph<E, Cond>, an: Analysis<S, E, Cond>, l: Ladder<S>, eng: Engine<S>)
  {
    && (forall k :: k in eng.exits ==> l.ok(eng.exits[k]))
    && forall b: BlockId :: b < |cfg.blocks| ==> Remembers(cfg, an, l, eng, b)
  }

  function Monus(a: nat, b: nat): nat {
    if b <= a then a - b else 0
  }

  /** How often the exit of b can still change: visits before widening, the first widened one, climbs of the memory. */
  ghost function WidenedLeft<S, E, Cond>(an: Analysis<S, E, Cond>, l: Ladder<S>, eng: Engine<S>, b: BlockId): nat {
    if b in eng.memory then Monus(l.top, l.rank(eng.memory[b]))
    else Monus(WidenAfter(an), VisitCount(eng.visits, b)) + 1 + l.top
  }

  /** The state a visit starts from is ok; when it widens, it is the old memory or has climbed. */
  lemma StartClimbs<S(!new), E(!new), Cond(!new)>(
    cfg: Graph<E, Cond>, an: Analysis<S, E, Cond>, l: Ladder<S>, eng: Engine<S>, b: BlockId, s: S)
    requires Stabilises(cfg, an, l) && b < |cfg.blocks| && Remembers(cfg, an, l, eng, b) && l.ok(s)
    ensures var start := StartState(an, eng, b, s);
            && l.ok(start)
            && (Widens(an, eng.visits, b) ==> l.flat(start) && l.rank(start) <= l.top)
            && (b in eng.memory ==> Widens(an, eng.visits, b) && (start == eng.memory[b] || l.rank(start) > l.rank(eng.memory[b])))
  {
    if b in eng.memory {
      var w := an.merge(eng.memory[b], s);
      assert l.ok(w);
    }
    hide ExitOf;
  }

  lemma VisitedRemembers<S(!new), E(!new), Cond(!new)>(
    cfg: Graph<E, Cond>, an: Analysis<S, E, Cond>, l: Ladder<S>, eng: Engine<S>, b: BlockId, rest: seq<BlockId>, s: S)
    requires Stabilises(cfg, an, l) && b < |cfg.blocks| && Remembering(cfg, an, l, eng) && l.ok(s)
    ensures Remembering(cfg, an, l, Visited(cfg, an, eng, b, rest, s))
  {
    var start := StartState(an, eng, b, s);
    assert Remembers(cfg, an, l, eng, b);
    StartClimbs(cfg, an, l, eng, b, s);
    assert forall e :: e in cfg.blocks[b].elems ==> Occurs(cfg, e);
    TransferredKeepsOk(cfg, an, l, cfg.blocks[b].elems, start);
    assert an.widen.Some?;
    hide Stabilises, Transferred, StartState, Enqueued;
    var r := Visited(cfg, an, eng, b, rest, s);
    forall k: BlockId | k < |cfg.blocks|
      ensures Remembers(cfg, an, l, r, k)
    {
      assert Remembers(cfg, an, l, eng, k);
    }
  }

  // --- Counting the changes of every exit ---

  /** The most often any exit changes. */
  function MostChanges<S, E, Cond>(an: Analysis<S, E, Cond>, l: Ladder<S>): nat {
    an.latticeHeight + 3 + l.top
  }

  function Sum(preds: seq<Option<BlockId>>, f: Left): nat {
    if preds == [] then 0 else Sum(preds[1..], f) + if preds[0].Some? then f(preds[0].value) else 0
  }

  /** How often b can be queued: once at the start, and for each change of a predecessor. */
  function Fed<E, Cond>(cfg: Graph<E, Cond>, f: Left, b: BlockId): nat
    requires b < |cfg.blocks|
  {
    Sum(cfg.blocks[b].preds, f) + if b == cfg.entry then 1 else 0
  }

  function Min(a: nat, b: nat): nat {
    if a < b then a else b
  }

  /** An allowance of changes for every block that covers what its predecessors' allowances feed it, up to w. */
  ghost predicate Budgeted<E, Cond>(cfg: Graph<E, Cond>, w: nat, budget: Left) {
    forall b: BlockId :: b < |cfg.blocks| ==> budget(b) >= Min(w, Fed(cfg, budget, b))
  }

  ghost predicate Within(n: nat, budget: Left, changes: Left) {
    forall b: BlockId :: b < n ==> changes(b) <= budget(b)
  }

  /** Every change cost a visit and a step towards stability, and every visit a change of a predecessor. */
  ghost predicate Charged<S, E, Cond>(
    cfg: Graph<E, Cond>, an: Analysis<S, E, Cond>, l: Ladder<S>, eng: Engine<S>, changes: Changes, b: BlockId)
    requires b < |cfg.blocks|
  {
    && VisitCount(changes, b) + WidenedLeft(an, l, eng, b) <= MostChanges(an, l)
    && VisitCount(changes, b) <= VisitCount(eng.visits, b)
    && VisitCount(eng.visits, b) + (if b in eng.worklist then 1 else 0) <= Fed(cfg, Counted(changes), b)
  }

  ghost predicate AllCharged<S, E, Cond>(
    cfg: Graph<E, Cond>, an: Analysis<S, E, Cond>, l: Ladder<S>, eng: Engine<S>, changes: Changes)
  {
    forall b: BlockId :: b < |cfg.blocks| ==> Charged(cfg, an, l, eng, changes, b)
  }

  lemma {:induction false} SumMonotone(preds: seq<Option<BlockId>>, f: Left, g: Left, n: nat)
    requires forall p: BlockId :: Some(p) in preds ==> p < n && f(p) <= g(p)
    ensures Sum(preds, f) <= Sum(preds, g)
  {
    if preds != [] {
      assert preds[0] in preds;
      SumMonotone(preds[1..], f, g, n);
    }
  }

  /** How often the exit of each block has changed. */
  type Changes = map<BlockId, nat>

  function Counted(changes: Changes): Left {
    (k: BlockId) => VisitCount(changes, k)
  }

  function Bumped(changes: Changes, b: BlockId): Changes {
    changes[b := VisitCount(changes, b) + 1]
  }

  lemma {:induction false} SumBumped(preds: seq<Option<BlockId>>, f: Changes, b: BlockId)
    ensures Sum(preds, Counted(Bumped(f, b))) >= Sum(preds, Counted(f)) + if Some(b) in preds then 1 else 0
  {
    if preds != [] {
      SumBumped(preds[1..], f, b);
    }
  }

  lemma FedMonotone<E, Cond>(cfg: Graph<E, Cond>, f: Left, g: Left, b: BlockId)
    requires Within(|cfg.blocks|, g, f) && b < |cfg.blocks|
    ensures Fed(cfg, f, b) <= Fed(cfg, g, b)
  {
    SumMonotone(cfg.blocks[b].preds, f, g, |cfg.blocks|);
  }

  /** Charges never exceed a budget that feeds itself. */
  lemma ChangeWithinBudget<S, E, Cond>(
    cfg: Graph<E, Cond>, an: Analysis<S, E, Cond>, l: Ladder<S>, eng: Engine<S>, budget: Left, changes: Changes, b: BlockId)
    requires Budgeted(cfg, MostChanges(an, l), budget) && Within(|cfg.blocks|, budget, Counted(changes))
    requires b < |cfg.blocks| && Charged(cfg, an, l, eng, changes, b) && b in eng.worklist && WidenedLeft(an, l, eng, b) > 0
    ensures VisitCount(changes, b) < budget(b)
  {
    FedMonotone(cfg, Counted(changes), budget, b);
    hide Fed, Within, WidenedLeft;
  }

  /** A visited block's exit changes only while it has changes left. */
  lemma VisitedLeft<S(!new), E(!new), Cond(!new)>(
    cfg: Graph<E, Cond>, an: Analysis<S, E, Cond>, l: Ladder<S>, eng: Engine<S>, b: BlockId, rest: seq<BlockId>, s: S)
    requires Stabilises(cfg, an, l) && b < |cfg.blocks| && Remembering(cfg, an, l, eng) && l.ok(s)
    ensures var r := Visited(cfg, an, eng, b, rest, s);
            && r.visits == eng.visits[b := VisitCount(eng.visits, b) + 1]
            && (forall k: BlockId :: WidenedLeft(an, l, r, k) <= WidenedLeft(an, l, eng, k))
            && (r.worklist != rest ==> WidenedLeft(an, l, r, b) < WidenedLeft(an, l, eng, b))
  {
    assert Remembers(cfg, an, l, eng, b);
    StartClimbs(cfg, an, l, eng, b, s);
    assert an.widen.Some?;
    hide Stabilises, Remembering, StartState, Enqueued, ExitOf;
  }

  /** What a visit leaves in the queue, and what it charges the visited block. */
  ghost function ChangesAfter<S>(eng: Engine<S>, next: Engine<S>, changes: Changes): Changes
    requires eng.worklist != []
  {
    if next.worklist == eng.worklist[1..] then changes else Bumped(changes, eng.worklist[0])
  }

  lemma ChargedAfter<S, E, Cond>(
    cfg: Graph<E, Cond>, an: Analysis<S, E, Cond>, l: Ladder<S>, eng: Engine<S>, next: Engine<S>, changes: Changes)
    requires eng.worklist != [] && QueueOk(eng.worklist, |cfg.blocks|) && AllCharged(cfg, an, l, eng, changes)
    requires var b, rest := eng.worklist[0], eng.worklist[1..];
             && (next.worklist == rest || next.worklist == Enqueued(rest, cfg.blocks[b].succs))
             && (next.visits == eng.visits[b := VisitCount(eng.visits, b) + 1] || (next.visits == eng.visits && next.worklist == rest))
             && (forall k: BlockId :: WidenedLeft(an, l, next, k) <= WidenedLeft(an, l, eng, k))
             && (next.worklist != rest ==> WidenedLeft(an, l, next, b) < WidenedLeft(an, l, eng, b))
    ensures AllCharged(cfg, an, l, next, ChangesAfter(eng, next, changes))
  {
    var b, rest := eng.worklist[0], eng.worklist[1..];
    var changes' := ChangesAfter(eng, next, changes);
    FrontLeaves(eng.worklist, |cfg.blocks|);
    SuccessorsInGraph(cfg, b);
    EnqueuedExact(rest, cfg.blocks[b].succs, |cfg.blocks|);
    hide Enqueued, QueueOk, WidenedLeft;
    forall k: BlockId | k < |cfg.blocks|
      ensures Charged(cfg, an, l, next, changes', k)
    {
      assert Charged(cfg, an, l, eng, changes, k);
      assert VisitCount(next.visits, k) + (if k in rest then 1 else 0) <= Fed(cfg, Counted(changes), k);
      SumBumped(cfg.blocks[k].preds, changes, b);
      assert Some(k) in cfg.blocks[b].succs ==> Some(b) in cfg.blocks[k].preds;
    }
  }

  lemma VisitCharges<S(!new), E(!new), Cond(!new)>(
    cfg: Graph<E, Cond>, an: Analysis<S, E, Cond>, l: Ladder<S>, eng: Engine<S>, changes: Changes)
    requires Stabilises(cfg, an, l) && Remembering(cfg, an, l, eng) && AllCharged(cfg, an, l, eng, changes)
    requires eng.worklist != [] && QueueOk(eng.worklist, |cfg.blocks|)
    ensures var r := Visit(cfg, an, eng);
            && Remembering(cfg, an, l, r) && AllCharged(cfg, an, l, r, ChangesAfter(eng, r, changes))
            && (r.worklist == eng.worklist[1..] ||
                (r.worklist == Enqueued(eng.worklist[1..], cfg.blocks[eng.worklist[0]].succs) &&
                 WidenedLeft(an, l, eng, eng.worklist[0]) > 0))
  {
    var b, rest := eng.worklist[0], eng.worklist[1..];
    FrontLeaves(eng.worklist, |cfg.blocks|);
    EntryKeepsOk(cfg, an, l, eng.exits, b);
    var entry := ComputeEntry(cfg, an, eng.exits, b);
    if !entry.hasPreds && b != cfg.entry {
      SkippedRemembers(cfg, an, l, eng, rest);
    } else {
      VisitedRemembers(cfg, an, l, eng, b, rest, entry.state);
      VisitedLeft(cfg, an, l, eng, b, rest, entry.state);
    }
    hide Stabilises, Remembering, ComputeEntry, AllCharged, StartState, ExitOf, Enqueued;
    ChargedAfter(cfg, an, l, eng, Visit(cfg, an, eng), changes);
  }

  lemma SkippedRemembers<S(!new), E(!new), Cond(!new)>(
    cfg: Graph<E, Cond>, an: Analysis<S, E, Cond>, l: Ladder<S>, eng: Engine<S>, rest: seq<BlockId>)
    requires Remembering(cfg, an, l, eng)
    ensures var r := eng.(worklist := rest);
            Remembering(cfg, an, l, r) && forall k: BlockId :: WidenedLeft(an, l, r, k) == WidenedLeft(an, l, eng, k)
  {
    var r := eng.(worklist := rest);
    forall b: BlockId | b < |cfg.blocks|
      ensures Remembers(cfg, an, l, r, b)
    {
      assert Remembers(cfg, an, l, eng, b);
    }
  }

  // --- Draining ---

  function Unspent(budget: Left, changes: Changes): Left {
    (k: BlockId) => Monus(budget(k), VisitCount(changes, k))
  }

  lemma {:induction false} BudgetDrains<S(!new), E(!new), Cond(!new)>(
    cfg: Graph<E, Cond>, an: Analysis<S, E, Cond>, l: Ladder<S>, budget: Left, eng: Engine<S>, changes: Changes, limit: nat)
    requires Stabilises(cfg, an, l) && Budgeted(cfg, MostChanges(an, l), budget)
    requires QueueOk(eng.worklist, |cfg.blocks|) && Remembering(cfg, an, l, eng)
    requires AllCharged(cfg, an, l, eng, changes) && Within(|cfg.blocks|, budget, Counted(changes))
    requires Potential(cfg, Unspent(budget, changes), eng) <= limit
    ensures Iterate(cfg, an, eng, limit).worklist == []
    decreases limit
  {
    hide Stabilises, Budgeted, QueueOk, Remembering, AllCharged, Visit, Enqueued, WidenedLeft, MostChanges, Potential, Within, Unspent, ChangesAfter;
    if eng.worklist != [] {
      var next := Visit(cfg, an, eng);
      var changes' := ChangesAfter(eng, next, changes);
      VisitKeepsQueue(cfg, an, eng);
      VisitCharges(cfg, an, l, eng, changes);
      ChangesFit(cfg, an, l, budget, eng, next, changes);
      BudgetDrains(cfg, an, l, budget, next, changes', limit - 1);
    }
  }

  lemma UnspentAt(budget: Left, changes: Changes, k: BlockId)
    ensures Unspent(budget, changes)(k) == Monus(budget(k), VisitCount(changes, k))
  {
  }

  lemma CountedAt(changes: Changes, k: BlockId)
    ensures Counted(changes)(k) == VisitCount(changes, k)
  {
  }

  lemma BumpedFits(n: nat, budget: Left, changes: Changes, b: BlockId)
    requires Within(n, budget, Counted(changes)) && VisitCount(changes, b) < budget(b)
    ensures Within(n, budget, Counted(Bumped(changes, b)))
  {
    hide Counted;
    forall k: BlockId | k < n
      ensures Counted(Bumped(changes, b))(k) <= budget(k)
    {
      CountedAt(changes, k);
      CountedAt(Bumped(changes, b), k);
    }
  }

  lemma BumpedSpends(budget: Left, changes: Changes, b: BlockId)
    requires VisitCount(changes, b) < budget(b)
    ensures var left, left' := Unspent(budget, changes), Unspent(budget, Bumped(changes, b));
            left'(b) < left(b) && forall k: BlockId :: k != b ==> left'(k) == left(k)
  {
    hide Unspent;
    forall k: BlockId
      ensures var left, left' := Unspent(budget, changes), Unspent(budget, Bumped(changes, b));
              if k == b then left'(k) < left(k) else left'(k) == left(k)
    {
      UnspentAt(budget, changes, k);
      UnspentAt(budget, Bumped(changes, b), k);
    }
  }

  lemma ChangesFit<S(!new), E(!new), Cond(!new)>(
    cfg: Graph<E, Cond>, an: Analysis<S, E, Cond>, l: Ladder<S>, budget: Left, eng: Engine<S>, next: Engine<S>, changes: Changes)
    requires Budgeted(cfg, MostChanges(an, l), budget) && AllCharged(cfg, an, l, eng, changes) && Within(|cfg.blocks|, budget, Counted(changes))
    requires eng.worklist != [] && QueueOk(eng.worklist, |cfg.blocks|)
    requires next.worklist == eng.worklist[1..] ||
             (next.worklist == Enqueued(eng.worklist[1..], cfg.blocks[eng.worklist[0]].succs) && WidenedLeft(an, l, eng, eng.worklist[0]) > 0)
    ensures var changes' := ChangesAfter(eng, next, changes);
            && Within(|cfg.blocks|, budget, Counted(changes'))
            && Potential(cfg, Unspent(budget, changes'), next) < Potential(cfg, Unspent(budget, changes), eng)
  {
    var b := eng.worklist[0];
    FrontLeaves(eng.worklist, |cfg.blocks|);
    hide Budgeted, Charged, QueueOk, Enqueued, WidenedLeft, Potential, MostChanges, Pending, Bumped, Unspent, Within;
    if next.worklist != eng.worklist[1..] {
      assert b in eng.worklist;
      ChangeWithinBudget(cfg, an, l, eng, budget, changes, b);
      BumpedFits(|cfg.blocks|, budget, changes, b);
      BumpedSpends(budget, changes, b);
    }
    hide AllCharged;
    VisitSpends(cfg, Unspent(budget, changes), Unspent(budget, ChangesAfter(eng, next, changes)), eng, next);
  }

  /** With any self-feeding budget, the uncapped worklist drains within one visit and one for every budgeted change of every edge. */
  lemma WideningDrains<S(!new), E(!new), Cond(!new)>(
    cfg: Graph<E, Cond>, an: Analysis<S, E, Cond>, l: Ladder<S>, budget: Left, limit: nat)
    requires Stabilises(cfg, an, l) && Budgeted(cfg, MostChanges(an, l), budget)
    requires limit >= 1 + Pending(cfg, budget, |cfg.blocks|)
    ensures Iterate(cfg, an, Start(cfg), limit).worklist == []
  {
    hide *;
    NothingSpent<S, E, Cond>(cfg, budget);
    StartRemembers(cfg, an, l);
    StartCharged(cfg, an, l);
    BudgetDrains(cfg, an, l, budget, Start(cfg), map[], limit);
  }

  lemma StartCharged<S(!new), E(!new), Cond(!new)>(cfg: Graph<E, Cond>, an: Analysis<S, E, Cond>, l: Ladder<S>)
    ensures AllCharged(cfg, an, l, Start(cfg), map[])
  {
    var start: Engine<S> := Start(cfg);
    forall b: BlockId | b < |cfg.blocks|
      ensures Charged(cfg, an, l, start, map[], b)
    {
    }
  }

  lemma NothingSpent<S, E, Cond>(cfg: Graph<E, Cond>, budget: Left)
    ensures Within(|cfg.blocks|, budget, Counted(map[]))
    ensures Potential(cfg, Unspent(budget, map[]), Start<S, E, Cond>(cfg)) == 1 + Pending(cfg, budget, |cfg.blocks|)
  {
    PendingSame(cfg, budget, Unspent(budget, map[]), |cfg.blocks|);
  }

  lemma StartRemembers<S(!new), E(!new), Cond(!new)>(cfg: Graph<E, Cond>, an: Analysis<S, E, Cond>, l: Ladder<S>)
    ensures QueueOk(Start<S, E, Cond>(cfg).worklist, |cfg.blocks|)
    ensures Remembering(cfg, an, l, Start(cfg))
  {
    var start: Engine<S> := Start(cfg);
    forall b: BlockId | b < |cfg.blocks|
      ensures Remembers(cfg, an, l, start, b)
    {
    }
  }

  /** The flat budget: one visit and, for every edge, latticeHeight + 3 + top. */
  lemma WideningDrainsFlat<S(!new), E(!new), Cond(!new)>(cfg: Graph<E, Cond>, an: Analysis<S, E, Cond>, l: Ladder<S>, limit: nat)
    requires Stabilises(cfg, an, l) && limit >= 1 + EdgeBudget(cfg, an.latticeHeight + 2 + l.top, |cfg.blocks|)
    ensures Iterate(cfg, an, Start(cfg), limit).worklist == []
  {
    hide Stabilises;
    var budget: Left := (b: BlockId) => MostChanges(an, l);
    PendingAtStart(cfg, budget, an.latticeHeight + 2 + l.top, |cfg.blocks|);
    WideningDrains(cfg, an, l, budget, limit);
  }

  // --- The budget a caller can compute from the graph ---

  /** Refining the flat budget w: a block changes no more often than its predecessors feed it. */
  function BudgetAfter<E, Cond>(cfg: Graph<E, Cond>, w: nat, rounds: nat): Left {
    (b: BlockId) => Allowance(cfg, w, rounds, b)
  }

  function Allowance<E, Cond>(cfg: Graph<E, Cond>, w: nat, rounds: nat, b: BlockId): nat
    decreases rounds, 0
  {
    if rounds == 0 || b >= |cfg.blocks| then w
    else Min(w, Share(cfg, w, rounds - 1, cfg.blocks[b].preds) + if b == cfg.entry then 1 else 0)
  }

  function Share<E, Cond>(cfg: Graph<E, Cond>, w: nat, rounds: nat, preds: seq<Option<BlockId>>): nat
    decreases rounds, 1, |preds|
  {
    if preds == [] then 0
    else Share(cfg, w, rounds, preds[1..]) + if preds[0].Some? then Allowance(cfg, w, rounds, preds[0].value) else 0
  }

  lemma {:induction false} ShareIsSum<E, Cond>(cfg: Graph<E, Cond>, w: nat, rounds: nat, preds: seq<Option<BlockId>>)
    ensures Share(cfg, w, rounds, preds) == Sum(preds, BudgetAfter(cfg, w, rounds))
  {
    if preds != [] {
      ShareIsSum(cfg, w, rounds, preds[1..]);
    }
  }

  lemma {:induction false} RefinedBudget<E, Cond>(cfg: Graph<E, Cond>, w: nat, rounds: nat)
    ensures Within(|cfg.blocks|, BudgetAfter(cfg, w, rounds), BudgetAfter(cfg, w, rounds + 1))
  {
    hide Share, Sum;
    forall b: BlockId | b < |cfg.blocks|
      ensures BudgetAfter(cfg, w, rounds + 1)(b) <= BudgetAfter(cfg, w, rounds)(b)
    {
      if rounds > 0 {
        RefinedBudget(cfg, w, rounds - 1);
        ShareIsSum(cfg, w, rounds, cfg.blocks[b].preds);
        ShareIsSum(cfg, w, rounds - 1, cfg.blocks[b].preds);
        FedMonotone(cfg, BudgetAfter(cfg, w, rounds), BudgetAfter(cfg, w, rounds - 1), b);
      }
    }
  }

  /** However far refined, the budget feeds itself. */
  lemma BudgetAfterFeeds<E, Cond>(cfg: Graph<E, Cond>, w: nat, rounds: nat)
    ensures Budgeted(cfg, w, BudgetAfter(cfg, w, rounds))
  {
    RefinedBudget(cfg, w, rounds);
    forall b: BlockId | b < |cfg.blocks|
      ensures BudgetAfter(cfg, w, rounds)(b) >= Min(w, Fed(cfg, BudgetAfter(cfg, w, rounds), b))
    {
      ShareIsSum(cfg, w, rounds, cfg.blocks[b].preds);
      assert BudgetAfter(cfg, w, rounds + 1)(b) == Min(w, Fed(cfg, BudgetAfter(cfg, w, rounds), b));
    }
  }

  /** The coded cap suffices when it is no smaller than the visits a refined budget pays for. */
  predicate CapCovers<E, Cond>(cfg: Graph<E, Cond>, latticeHeight: nat, top: nat, rounds: nat) {
    1 + Pending(cfg, BudgetAfter(cfg, latticeHeight + 3 + top, rounds), |cfg.blocks|) <= |cfg.blocks| * (latticeHeight + 2)
  }

  lemma WideningConvergesWithinCap<S(!new), E(!new), Cond(!new)>(
    cfg: Graph<E, Cond>, an: Analysis<S, E, Cond>, l: Ladder<S>, rounds: nat)
    requires Stabilises(cfg, an, l) && CapCovers(cfg, an.latticeHeight, l.top, rounds)
    ensures Solve(cfg, an).converged
  {
    hide Stabilises;
    BudgetAfterFeeds(cfg, MostChanges(an, l), rounds);
    WideningDrains(cfg, an, l, BudgetAfter(cfg, MostChanges(an, l), rounds), MaxIterations(cfg, an));
  }

  // --- States the engine computes ---

  ghost predicate EngineOk<S, E, Cond>(l: Ladder<S>, eng: Engine<S>) {
    (forall k :: k in eng.exits ==> l.ok(eng.exits[k])) && forall k :: k in eng.memory ==> l.ok(eng.memory[k])
  }

  lemma VisitOk<S(!new), E(!new), Cond(!new)>(cfg: Graph<E, Cond>, an: Analysis<S, E, Cond>, l: Ladder<S>, eng: Engine<S>)
    requires KeepsOk(cfg, an, l) && EngineOk<S, E, Cond>(l, eng) && eng.worklist != [] && QueueOk(eng.worklist, |cfg.blocks|)
    ensures EngineOk<S, E, Cond>(l, Visit(cfg, an, eng))
  {
    var b := eng.worklist[0];
    EntryKeepsOk(cfg, an, l, eng.exits, b);
    var entry := ComputeEntry(cfg, an, eng.exits, b);
    StartOk(cfg, an, l, eng, b, entry.state);
    var start := StartState(an, eng, b, entry.state);
    assert forall e :: e in cfg.blocks[b].elems ==> Occurs(cfg, e);
    TransferredKeepsOk(cfg, an, l, cfg.blocks[b].elems, start);
    hide KeepsOk, ComputeEntry, StartState, Transferred, Enqueued, Occurs;
  }

  lemma StartOk<S(!new), E(!new), Cond(!new)>(
    cfg: Graph<E, Cond>, an: Analysis<S, E, Cond>, l: Ladder<S>, eng: Engine<S>, b: BlockId, s: S)
    requires KeepsOk(cfg, an, l) && EngineOk<S, E, Cond>(l, eng) && l.ok(s)
    ensures l.ok(StartState(an, eng, b, s))
  {
    if b in eng.memory {
      var w := an.merge(eng.memory[b], s);
      assert l.ok(w);
    }
  }

  lemma ExitsOk<S(!new), E(!new), Cond(!new)>(cfg: Graph<E, Cond>, an: Analysis<S, E, Cond>, l: Ladder<S>, p: BlockId)
    requires KeepsOk(cfg, an, l) && p in Solve(cfg, an).exits
    ensures l.ok(Solve(cfg, an).exits[p])
  {
    hide KeepsOk, Visit;
    var ok := (e: Engine<S>) => EngineOk<S, E, Cond>(l, e);
    forall e: Engine<S> | e.worklist != [] && QueueOk(e.worklist, |cfg.blocks|) && ok(e)
      ensures ok(Visit(cfg, an, e))
    {
      VisitOk(cfg, an, l, e);
    }
    IterateInduction(cfg, an, Start(cfg), MaxIterations(cfg, an), ok);
  }
}
