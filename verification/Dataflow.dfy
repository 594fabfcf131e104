/**
 The worklist engine of src/engine/DataflowEngine.h, for any analysis: the states one visit
 of a block goes through, as functions over the engine's own data.
 */
module Dataflow {
  import opened Int64

  type BlockId = nat

  /** Unreachable neighbours are None, as the control-flow graph reports them. */
  datatype Block<E, Cond> = Block(
    elems: seq<E>,
    cond: Option<Cond>,
    isSelection: bool,      // the terminator is a ?: operator
    noReturn: bool,
    preds: seq<Option<BlockId>>,
    succs: seq<Option<BlockId>>)

  datatype Cfg<E, Cond> = Cfg(blocks: seq<Block<E, Cond>>, entry: BlockId) {

    /** Successors and predecessors describe the same edges, and the entry has no predecessor. */
    ghost predicate WellFormed() {
      && entry < |blocks|
      && blocks[entry].preds == []
      && (forall a: BlockId, b: BlockId :: a < |blocks| && Some(b) in blocks[a].succs ==> b < |blocks| && Some(a) in blocks[b].preds)
      && (forall a: BlockId, b: BlockId :: b < |blocks| && Some(a) in blocks[b].preds ==> a < |blocks| && Some(b) in blocks[a].succs)
    }
  }

  type Graph<E, Cond> = cfg: Cfg<E, Cond> | cfg.WellFormed()
    witness Cfg([Block([], None, false, false, [], [])], 0)

  /** The analysis hooks. Optional hooks are None when the analysis does not provide them. */
  datatype Analysis<!S, !E, !Cond> = Analysis(
    initial: S,
    merge: (S, S) -> S,
    guard: (E, S) -> S,                       // applyAssertGuard, before transfer
    transfer: (E, S) -> S,
    refine: Option<(Cond, bool, S) -> S>,
    widen: Option<S -> S>,
    latticeHeight: nat,
    edgeCondition: Cond -> (Cond, bool),      // the condition tested, and whether it is flipped
    infeasible: (Cond, bool) -> bool,         // edgeInfeasibleByFlags
    fatal: E -> bool)                         // isFatalCall

  datatype Entry<S> = Entry(state: S, hasPreds: bool)

  /** The loop variables of the fixpoint phase; a block is queued when it is in the worklist. */
  datatype Engine<S> = Engine(
    worklist: seq<BlockId>,
    exits: map<BlockId, S>,
    visits: map<BlockId, nat>,
    memory: map<BlockId, S>)

  datatype Result<S> = Result(exits: map<BlockId, S>, converged: bool, report: map<(BlockId, nat), S>)

  // --- Entry state of a block ---

  function Refine<S, E, Cond>(an: Analysis<S, E, Cond>, cond: Cond, taken: bool, s: S): S {
    if an.refine.Some? then an.refine.value(cond, taken, s) else s
  }

  /** The block both arms of a selection diamond hang from, when b is its join. */
  function SelectionHead<E, Cond>(cfg: Graph<E, Cond>, b: BlockId): Option<BlockId>
    requires b < |cfg.blocks|
  {
    var preds := cfg.blocks[b].preds;
    if |preds| != 2 || preds[0].None? || preds[1].None? || preds[0] == preds[1] then None
    else
      assert preds[0] in preds && preds[1] in preds;
      var up1, up2 := cfg.blocks[preds[0].value].preds, cfg.blocks[preds[1].value].preds;
      if |up1| != 1 || |up2| != 1 || up1[0].None? || up1[0] != up2[0] then None
      else
        assert up1[0] in up1;
        var head := up1[0].value;
        if cfg.blocks[head].isSelection && cfg.blocks[head].cond.Some? then Some(head) else None
  }

  /** Value-selection rewind: arms that changed nothing rejoin in the state before the selection. */
  function Rewind<S(==), E, Cond>(
    cfg: Graph<E, Cond>, an: Analysis<S, E, Cond>, exits: map<BlockId, S>, b: BlockId): Option<S>
    requires b < |cfg.blocks|
  {
    var head := SelectionHead(cfg, b);
    if an.refine.None? || head.None? then None
    else
      var g := head.value;
      var arm1, arm2 := cfg.blocks[b].preds[0].value, cfg.blocks[b].preds[1].value;
      assert Some(arm1) in cfg.blocks[b].preds;
      assert Some(g) in cfg.blocks[arm1].preds;
      assert |cfg.blocks[g].succs| > 0;
      if g !in exits || arm1 !in exits || arm2 !in exits then None
      else
        var (leaf, flip) := an.edgeCondition(cfg.blocks[g].cond.value);
        var arm1IsTrue := cfg.blocks[g].succs[0] == Some(arm1);
        var trueExit := if arm1IsTrue then exits[arm1] else exits[arm2];
        var falseExit := if arm1IsTrue then exits[arm2] else exits[arm1];
        if trueExit == Refine(an, leaf, !flip, exits[g]) && falseExit == Refine(an, leaf, flip, exits[g])
        then Some(exits[g]) else None
  }

  /** What the edge from p contributes to the entry of b, refined by the branch it takes. */
  function Contribution<S, E, Cond>(
    cfg: Graph<E, Cond>, an: Analysis<S, E, Cond>, exits: map<BlockId, S>, p: Option<BlockId>, b: BlockId): Option<S>
    requires p.Some? ==> p.value < |cfg.blocks|
  {
    if p.None? || p.value !in exits then None
    else
      var from, s := cfg.blocks[p.value], exits[p.value];
      if |from.succs| == 2 && from.cond.Some? && from.succs[0] != from.succs[1] && Some(b) in from.succs then
        var (leaf, flip) := an.edgeCondition(from.cond.value);
        var taken := (from.succs[0] == Some(b)) != flip;
        if an.infeasible(leaf, taken) then None else Some(Refine(an, leaf, taken, s))
      else Some(s)
  }

  function MergeInto<S, E, Cond>(an: Analysis<S, E, Cond>, acc: Option<S>, next: Option<S>): Option<S> {
    if next.None? then acc
    else if acc.None? then next
    else Some(an.merge(acc.value, next.value))
  }

  /** The contributions of the first n predecessors, merged in order. */
  function MergedPreds<S, E, Cond>(
    cfg: Graph<E, Cond>, an: Analysis<S, E, Cond>, exits: map<BlockId, S>, b: BlockId, n: nat): Option<S>
    requires b < |cfg.blocks| && n <= |cfg.blocks[b].preds|
  {
    if n == 0 then None
    else
      var p := cfg.blocks[b].preds[n - 1];
      assert p in cfg.blocks[b].preds;
      MergeInto(an, MergedPreds(cfg, an, exits, b, n - 1), Contribution(cfg, an, exits, p, b))
  }

  function ComputeEntry<S(==), E, Cond>(
    cfg: Graph<E, Cond>, an: Analysis<S, E, Cond>, exits: map<BlockId, S>, b: BlockId): Entry<S>
    requires b < |cfg.blocks|
  {
    var rewound := Rewind(cfg, an, exits, b);
    if rewound.Some? then Entry(rewound.value, true)
    else
      var merged := MergedPreds(cfg, an, exits, b, |cfg.blocks[b].preds|);
      if merged.Some? then Entry(merged.value, true) else Entry(an.initial, false)
  }

  // --- One visit ---

  /** The state after the elements; None when a fatal call ends the path. */
  function Transferred<S, E, Cond>(an: Analysis<S, E, Cond>, elems: seq<E>, s: S): Option<S> {
    if elems == [] then Some(s)
    else if an.fatal(elems[0]) then None
    else Transferred(an, elems[1..], an.transfer(elems[0], an.guard(elems[0], s)))
  }

  function ExitOf<S, E, Cond>(an: Analysis<S, E, Cond>, block: Block<E, Cond>, s: S): Option<S> {
    if block.noReturn then None else Transferred(an, block.elems, s)
  }

  function Enqueued(worklist: seq<BlockId>, succs: seq<Option<BlockId>>): seq<BlockId>
    decreases |succs|
  {
    if succs == [] then worklist
    else
      var next := succs[0];
      Enqueued(if next.None? || next.value in worklist then worklist else worklist + [next.value], succs[1..])
  }

  function VisitCount(visits: map<BlockId, nat>, b: BlockId): nat {
    if b in visits then visits[b] else 0
  }

  /** Whether this visit of b widens: it has been visited more often than a monotone climb explains. */
  predicate Widens<S, E, Cond>(an: Analysis<S, E, Cond>, visits: map<BlockId, nat>, b: BlockId) {
    an.widen.Some? && VisitCount(visits, b) + 1 > an.latticeHeight + 2
  }

  function WidenedEntry<S, E, Cond>(an: Analysis<S, E, Cond>, memory: map<BlockId, S>, b: BlockId, s: S): S
    requires an.widen.Some?
  {
    an.widen.value(if b in memory then an.merge(memory[b], s) else s)
  }

  /** The state the transfer of this visit starts from. */
  function StartState<S, E, Cond>(an: Analysis<S, E, Cond>, eng: Engine<S>, b: BlockId, s: S): S {
    if Widens(an, eng.visits, b) then WidenedEntry(an, eng.memory, b, s) else s
  }

  /** Every pending block is in the graph, and none is pending twice. */
  ghost predicate QueueOk(worklist: seq<BlockId>, numBlocks: nat) {
    forall i :: 0 <= i < |worklist| ==> worklist[i] < numBlocks && worklist[i] !in worklist[i + 1..]
  }

  /** What a visit of b does from its entry state on: widen, transfer, record, queue the successors. */
  function Visited<S(==), E, Cond>(
    cfg: Graph<E, Cond>, an: Analysis<S, E, Cond>, eng: Engine<S>, b: BlockId, rest: seq<BlockId>, s: S): Engine<S>
    requires b < |cfg.blocks|
  {
    var start := StartState(an, eng, b, s);
    var visits := if an.widen.Some? then eng.visits[b := VisitCount(eng.visits, b) + 1] else eng.visits;
    var memory := if Widens(an, eng.visits, b) then eng.memory[b := start] else eng.memory;
    var exit := ExitOf(an, cfg.blocks[b], start);
    if exit.None? || (b in eng.exits && eng.exits[b] == exit.value) then Engine(rest, eng.exits, visits, memory)
    else Engine(Enqueued(rest, cfg.blocks[b].succs), eng.exits[b := exit.value], visits, memory)
  }

  /** One iteration of the worklist loop. */
  function Visit<S(==), E, Cond>(cfg: Graph<E, Cond>, an: Analysis<S, E, Cond>, eng: Engine<S>): Engine<S>
    requires eng.worklist != [] && QueueOk(eng.worklist, |cfg.blocks|)
  {
    var b, rest := eng.worklist[0], eng.worklist[1..];
    var entry := ComputeEntry(cfg, an, eng.exits, b);
    if !entry.hasPreds && b != cfg.entry then eng.(worklist := rest)
    else Visited(cfg, an, eng, b, rest, entry.state)
  }

  lemma AppendKeepsQueue(worklist: seq<BlockId>, b: BlockId, numBlocks: nat)
    requires QueueOk(worklist, numBlocks) && b !in worklist && b < numBlocks
    ensures QueueOk(worklist + [b], numBlocks)
  {
    var w := worklist + [b];
    forall i | 0 <= i < |w|
      ensures w[i] < numBlocks && w[i] !in w[i + 1..]
    {
      if i < |worklist| {
        assert w[i + 1..] == worklist[i + 1..] + [b];
      }
    }
  }

  lemma {:induction false} EnqueuedExact(worklist: seq<BlockId>, succs: seq<Option<BlockId>>, numBlocks: nat)
    requires QueueOk(worklist, numBlocks) && forall b: BlockId :: Some(b) in succs ==> b < numBlocks
    ensures var r := Enqueued(worklist, succs);
            && QueueOk(r, numBlocks) && worklist <= r
            && forall b :: b in r <==> b in worklist || Some(b) in succs
    decreases |succs|
  {
    if succs != [] {
      var next := succs[0];
      var w := if next.None? || next.value in worklist then worklist else worklist + [next.value];
      assert next in succs;
      if w != worklist {
        AppendKeepsQueue(worklist, next.value, numBlocks);
      }
      assert forall b :: b in w <==> b in worklist || Some(b) == next;
      assert forall b: BlockId :: Some(b) in succs <==> Some(b) == next || Some(b) in succs[1..];
      EnqueuedExact(w, succs[1..], numBlocks);
    }
  }

  lemma FrontLeaves(worklist: seq<BlockId>, numBlocks: nat)
    requires worklist != [] && QueueOk(worklist, numBlocks)
    ensures QueueOk(worklist[1..], numBlocks) && worklist[0] < numBlocks
    ensures forall i: BlockId :: i in worklist[1..] <==> i in worklist && i != worklist[0]
  {
    var rest := worklist[1..];
    forall i | 0 <= i < |rest|
      ensures rest[i] < numBlocks && rest[i] !in rest[i + 1..]
    {
      assert rest[i] == worklist[i + 1] && rest[i + 1..] == worklist[i + 2..];
    }
    assert worklist == [worklist[0]] + rest;
  }

  lemma SuccessorsInGraph<E, Cond>(cfg: Graph<E, Cond>, b: BlockId)
    requires b < |cfg.blocks|
    ensures forall d: BlockId :: Some(d) in cfg.blocks[b].succs ==> d < |cfg.blocks|
  {
  }

  /** Every visit keeps the queue duplicate-free and inside the graph. */
  lemma VisitKeepsQueue<S, E, Cond>(cfg: Graph<E, Cond>, an: Analysis<S, E, Cond>, eng: Engine<S>)
    requires eng.worklist != [] && QueueOk(eng.worklist, |cfg.blocks|)
    ensures QueueOk(Visit(cfg, an, eng).worklist, |cfg.blocks|)
  {
    FrontLeaves(eng.worklist, |cfg.blocks|);
    SuccessorsInGraph(cfg, eng.worklist[0]);
    EnqueuedExact(eng.worklist[1..], cfg.blocks[eng.worklist[0]].succs, |cfg.blocks|);
  }

  /** The worklist loop for at most the given number of iterations. */
  function Iterate<S(==), E, Cond>(cfg: Graph<E, Cond>, an: Analysis<S, E, Cond>, eng: Engine<S>, limit: nat): Engine<S>
    requires QueueOk(eng.worklist, |cfg.blocks|)
    decreases limit
  {
    if eng.worklist == [] || limit == 0 then eng
    else
      VisitKeepsQueue(cfg, an, eng);
      Iterate(cfg, an, Visit(cfg, an, eng), limit - 1)
  }

  /** A property that every visit keeps holds of the state the loop stops in. */
  lemma {:induction false} IterateInduction<S(!new), E, Cond>(
    cfg: Graph<E, Cond>, an: Analysis<S, E, Cond>, eng: Engine<S>, limit: nat, p: Engine<S> -> bool)
    requires QueueOk(eng.worklist, |cfg.blocks|) && p(eng)
    requires forall e: Engine<S> {:trigger Visit(cfg, an, e)} ::
               e.worklist != [] && QueueOk(e.worklist, |cfg.blocks|) && p(e) ==> p(Visit(cfg, an, e))
    ensures var r := Iterate(cfg, an, eng, limit); p(r) && QueueOk(r.worklist, |cfg.blocks|)
    decreases limit
  {
    if eng.worklist != [] && limit > 0 {
      VisitKeepsQueue(cfg, an, eng);
      IterateInduction(cfg, an, Visit(cfg, an, eng), limit - 1, p);
    }
  }

  // --- Reporting pass ---

  function ReportElems<S, E, Cond>(
    an: Analysis<S, E, Cond>, b: BlockId, elems: seq<E>, i: nat, s: S, log: map<(BlockId, nat), S>): map<(BlockId, nat), S>
    requires i <= |elems|
    decreases |elems| - i
  {
    if i == |elems| || an.fatal(elems[i]) then log
    else
      var before := an.guard(elems[i], s);
      ReportElems(an, b, elems, i + 1, an.transfer(elems[i], before), log[(b, i) := before])
  }

  function ReportBlock<S(==), E, Cond>(
    cfg: Graph<E, Cond>, an: Analysis<S, E, Cond>, exits: map<BlockId, S>, b: BlockId, log: map<(BlockId, nat), S>)
    : map<(BlockId, nat), S>
    requires b < |cfg.blocks|
  {
    var entry := ComputeEntry(cfg, an, exits, b);
    if !entry.hasPreds && b != cfg.entry then log
    else ReportElems(an, b, cfg.blocks[b].elems, 0, entry.state, log)
  }

  /** The statements of the first n blocks with the state recorded before each. */
  function Report<S(==), E, Cond>(cfg: Graph<E, Cond>, an: Analysis<S, E, Cond>, exits: map<BlockId, S>, n: nat)
    : map<(BlockId, nat), S>
    requires n <= |cfg.blocks|
  {
    if n == 0 then map[]
    else ReportBlock(cfg, an, exits, n - 1, Report(cfg, an, exits, n - 1))
  }

  function Start<S, E, Cond>(cfg: Graph<E, Cond>): Engine<S> {
    Engine([cfg.entry], map[], map[], map[])
  }

  function MaxIterations<S, E, Cond>(cfg: Graph<E, Cond>, an: Analysis<S, E, Cond>): nat {
    |cfg.blocks| * (an.latticeHeight + 2)
  }

  function Solve<S(==), E, Cond>(cfg: Graph<E, Cond>, an: Analysis<S, E, Cond>): Result<S>
  {
    var final := Iterate(cfg, an, Start(cfg), MaxIterations(cfg, an));
    Result(final.exits, final.worklist == [], Report(cfg, an, final.exits, |cfg.blocks|))
  }
}
