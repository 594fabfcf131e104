/** The engine's loops as the source runs them, each proved equal to its function in Dataflow. */
module DataflowEngine {
  import opened Int64
  import opened Dataflow

  method ComputeEntryState<S(==), E, Cond>(
    cfg: Graph<E, Cond>, an: Analysis<S, E, Cond>, exits: map<BlockId, S>, b: BlockId) returns (entry: Entry<S>)
    requires b < |cfg.blocks|
    ensures entry == ComputeEntry(cfg, an, exits, b)
  {
    var rewound := Rewind(cfg, an, exits, b);
    if rewound.Some? {
      return Entry(rewound.value, true);
    }
    entry := Entry(an.initial, false);
    var preds := cfg.blocks[b].preds;
    for i := 0 to |preds|
      invariant MergedPreds(cfg, an, exits, b, i) == (if entry.hasPreds then Some(entry.state) else None)
      invariant !entry.hasPreds ==> entry.state == an.initial
    {
      assert preds[i] in preds;
      var s := Contribution(cfg, an, exits, preds[i], b);
      if s.Some? {
        entry := Entry(if entry.hasPreds then an.merge(entry.state, s.value) else s.value, true);
      }
    }
  }

  lemma {:induction false} TransferredSplit<S, E, Cond>(an: Analysis<S, E, Cond>, elems: seq<E>, i: nat, s: S)
    requires i < |elems| && Transferred(an, elems[..i], s).Some?
    ensures var t := Transferred(an, elems[..i], s).value;
            && (an.fatal(elems[i]) ==> Transferred(an, elems, s).None?)
            && (!an.fatal(elems[i]) ==> Transferred(an, elems[..i + 1], s) == Some(an.transfer(elems[i], an.guard(elems[i], t))))
  {
    if i == 0 {
      assert elems[..1] == [elems[0]];
    } else {
      assert elems[..i][0] == elems[0] && elems[..i][1..] == elems[1..][..i - 1];
      assert elems[..i + 1][1..] == elems[1..][..i];
      TransferredSplit(an, elems[1..], i - 1, an.transfer(elems[0], an.guard(elems[0], s)));
    }
  }

  method TransferBlock<S, E, Cond>(an: Analysis<S, E, Cond>, block: Block<E, Cond>, s: S) returns (exit: Option<S>)
    ensures exit == ExitOf(an, block, s)
  {
    var current, pathKilled := s, false;
    var elems := block.elems;
    var i := 0;
    while i < |elems| && !pathKilled
      invariant 0 <= i <= |elems|
      invariant !pathKilled ==> Transferred(an, elems[..i], s) == Some(current)
      invariant pathKilled ==> Transferred(an, elems, s).None?
      decreases |elems| - i, !pathKilled
    {
      TransferredSplit(an, elems, i, s);
      if an.fatal(elems[i]) {
        pathKilled := true;
      } else {
        current := an.transfer(elems[i], an.guard(elems[i], current));
        i := i + 1;
      }
    }
    assert i == |elems| ==> elems[..i] == elems;
    return if pathKilled || block.noReturn then None else Some(current);
  }

  /** Appends the unqueued successors and marks them. */
  method EnqueueAll(worklist: seq<BlockId>, succs: seq<Option<BlockId>>, queued: array<bool>) returns (w: seq<BlockId>)
    requires forall i :: 0 <= i < queued.Length ==> (queued[i] <==> i in worklist)
    requires forall b: BlockId :: Some(b) in succs ==> b < queued.Length
    modifies queued
    ensures w == Enqueued(worklist, succs)
    ensures forall i :: 0 <= i < queued.Length ==> (queued[i] <==> i in w)
  {
    w := worklist;
    for i := 0 to |succs|
      invariant Enqueued(w, succs[i..]) == Enqueued(worklist, succs)
      invariant forall k :: 0 <= k < queued.Length ==> (queued[k] <==> k in w)
    {
      assert succs[i..][0] == succs[i] && succs[i..][1..] == succs[i + 1..];
      if succs[i].Some? {
        var next := succs[i].value;
        assert Some(next) in succs;
        if !queued[next] {
          queued[next] := true;
          w := w + [next];
        }
      }
    }
  }

  method ReportingPass<S(==), E, Cond>(cfg: Graph<E, Cond>, an: Analysis<S, E, Cond>, exits: map<BlockId, S>)
    returns (log: map<(BlockId, nat), S>)
    ensures log == Report(cfg, an, exits, |cfg.blocks|)
  {
    log := map[];
    for b := 0 to |cfg.blocks|
      invariant log == Report(cfg, an, exits, b)
    {
      var entry := ComputeEntryState(cfg, an, exits, b);
      if entry.hasPreds || b == cfg.entry {
        ghost var target := ReportElems(an, b, cfg.blocks[b].elems, 0, entry.state, log);
        var current, elems, i := entry.state, cfg.blocks[b].elems, 0;
        while i < |elems| && !an.fatal(elems[i])
          invariant 0 <= i <= |elems|
          invariant ReportElems(an, b, elems, i, current, log) == target
        {
          var before := an.guard(elems[i], current);
          log := log[(b, i) := before];
          current := an.transfer(elems[i], before);
          i := i + 1;
        }
      }
    }
  }

  /** The arrays hold what the engine state says: queue membership and visit counts. */
  ghost predicate Mirrors<S>(eng: Engine<S>, queued: array<bool>, visitCounts: array<nat>)
    reads queued, visitCounts
  {
    && (forall i: BlockId :: i < queued.Length ==> (queued[i] <==> i in eng.worklist))
    && (forall i: BlockId :: i < visitCounts.Length ==> visitCounts[i] == VisitCount(eng.visits, i))
  }

  /** Counts the visit and, once it is one too many, widens against the block's memory. */
  method WidenIfDue<S, E, Cond>(
    an: Analysis<S, E, Cond>, ghost visits: map<BlockId, nat>, memory: map<BlockId, S>, visitCounts: array<nat>, b: BlockId, s: S)
    returns (start: S, memory': map<BlockId, S>)
    requires b < visitCounts.Length
    requires forall i: BlockId :: i < visitCounts.Length ==> visitCounts[i] == VisitCount(visits, i)
    modifies visitCounts
    ensures start == (if Widens(an, visits, b) then WidenedEntry(an, memory, b, s) else s)
    ensures memory' == (if Widens(an, visits, b) then memory[b := start] else memory)
    ensures var visits' := if an.widen.Some? then visits[b := VisitCount(visits, b) + 1] else visits;
            forall i: BlockId :: i < visitCounts.Length ==> visitCounts[i] == VisitCount(visits', i)
  {
    start, memory' := s, memory;
    if an.widen.Some? {
      visitCounts[b] := visitCounts[b] + 1;
      if visitCounts[b] > an.latticeHeight + 2 {
        start := an.widen.value(if b in memory then an.merge(memory[b], s) else s);
        memory' := memory[b := start];
      }
    }
  }

  /** The rest of a visit once the entry state of b is known; b is off the queue. */
  method FinishVisit<S(==), E, Cond>(
    cfg: Graph<E, Cond>, an: Analysis<S, E, Cond>, ghost eng: Engine<S>, b: BlockId, rest: seq<BlockId>, s: S,
    exits: map<BlockId, S>, memory: map<BlockId, S>, queued: array<bool>, visitCounts: array<nat>)
    returns (worklist: seq<BlockId>, exits': map<BlockId, S>, memory': map<BlockId, S>)
    requires b < |cfg.blocks| && queued.Length == visitCounts.Length == |cfg.blocks|
    requires eng.exits == exits && eng.memory == memory
    requires Mirrors(eng.(worklist := rest), queued, visitCounts)
    modifies queued, visitCounts
    ensures Visited(cfg, an, eng, b, rest, s).worklist == worklist
    ensures Visited(cfg, an, eng, b, rest, s).exits == exits'
    ensures Visited(cfg, an, eng, b, rest, s).memory == memory'
    ensures Mirrors(Visited(cfg, an, eng, b, rest, s), queued, visitCounts)
  {
    hide ExitOf, Enqueued, WidenedEntry, Widens, VisitCount;
    SuccessorsInGraph(cfg, b);
    worklist, exits' := rest, exits;
    var start, widened := WidenIfDue(an, eng.visits, memory, visitCounts, b, s);
    memory' := widened;
    var exit := TransferBlock(an, cfg.blocks[b], start);
    if exit.Some? && (b !in exits || exits[b] != exit.value) {
      exits' := exits[b := exit.value];
      worklist := EnqueueAll(rest, cfg.blocks[b].succs, queued);
    }
  }

  /** One iteration of the fixpoint loop, after the front block b has been taken off the queue. */
  method VisitFront<S(==), E, Cond>(
    cfg: Graph<E, Cond>, an: Analysis<S, E, Cond>, ghost eng: Engine<S>, b: BlockId, rest: seq<BlockId>,
    exits: map<BlockId, S>, memory: map<BlockId, S>, queued: array<bool>, visitCounts: array<nat>)
    returns (worklist: seq<BlockId>, exits': map<BlockId, S>, memory': map<BlockId, S>)
    requires eng.worklist != [] && QueueOk(eng.worklist, |cfg.blocks|)
    requires eng.worklist == [b] + rest && eng.exits == exits && eng.memory == memory
    requires Mirrors(eng, queued, visitCounts)
    requires queued.Length == visitCounts.Length == |cfg.blocks|
    modifies queued, visitCounts
    ensures Visit(cfg, an, eng).worklist == worklist
    ensures Visit(cfg, an, eng).exits == exits'
    ensures Visit(cfg, an, eng).memory == memory'
    ensures Mirrors(Visit(cfg, an, eng), queued, visitCounts)
  {
    hide ComputeEntry, Visited;
    FrontLeaves(eng.worklist, |cfg.blocks|);
    assert eng.worklist[0] == b && eng.worklist[1..] == rest;
    queued[b] := false;
    var entry := ComputeEntryState(cfg, an, exits, b);
    if entry.hasPreds || b == cfg.entry {
      worklist, exits', memory' := FinishVisit(cfg, an, eng, b, rest, entry.state, exits, memory, queued, visitCounts);
    } else {
      worklist, exits', memory' := rest, exits, memory;
    }
  }

  /** The fixpoint loop, capped. */
  method RunFixpoint<S(==), E, Cond>(cfg: Graph<E, Cond>, an: Analysis<S, E, Cond>, queued: array<bool>, visitCounts: array<nat>)
    returns (worklist: seq<BlockId>, exits: map<BlockId, S>)
    requires queued.Length == visitCounts.Length == |cfg.blocks|
    requires Mirrors<S>(Start(cfg), queued, visitCounts)
    modifies queued, visitCounts
    ensures var final := Iterate(cfg, an, Start(cfg), MaxIterations(cfg, an)); worklist == final.worklist && exits == final.exits
  {
    hide Visit, MaxIterations;
    ghost var eng: Engine<S> := Start(cfg);
    worklist, exits := [cfg.entry], map[];
    var memory: map<BlockId, S> := map[];
    var iterations, maxIterations := 0, MaxIterations(cfg, an);
    ghost var final := Iterate(cfg, an, eng, maxIterations);
    while worklist != [] && iterations < maxIterations
      invariant iterations <= maxIterations
      invariant eng.worklist == worklist && eng.exits == exits && eng.memory == memory
      invariant QueueOk(eng.worklist, |cfg.blocks|)
      invariant Mirrors(eng, queued, visitCounts)
      invariant Iterate(cfg, an, eng, maxIterations - iterations) == final
      decreases maxIterations - iterations
    {
      iterations := iterations + 1;
      VisitKeepsQueue(cfg, an, eng);
      worklist, exits, memory := VisitFront(cfg, an, eng, worklist[0], worklist[1..], exits, memory, queued, visitCounts);
      eng := Visit(cfg, an, eng);
    }
  }

  /** Fixpoint iteration followed by the reporting pass. */
  method RunDataflow<S(==), E, Cond>(cfg: Graph<E, Cond>, an: Analysis<S, E, Cond>) returns (r: Result<S>)
    ensures r == Solve(cfg, an)
  {
    var queued := new bool[|cfg.blocks|](i => i == cfg.entry);
    var visitCounts := new nat[|cfg.blocks|](i => 0);
    var worklist, exits := RunFixpoint(cfg, an, queued, visitCounts);
    var report := ReportingPass(cfg, an, exits);
    r := Result(exits, worklist == [], report);
  }
}
