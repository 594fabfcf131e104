/**
 What the engine of src/engine/DataflowEngine.h makes of each edge, exactly: which states reach
 a block, refined by which side of which condition, in which order they are joined, and what
 the report holds of every element.
 */
module EngineExact {
  import opened Int64
  import opened Dataflow
  import DS = DataflowSoundness

  // --- The state an edge carries ---

  /** The edge from p is one of the two sides of a branch. */
  predicate Side<E, Cond>(cfg: Graph<E, Cond>, p: BlockId, b: BlockId)
    requires p < |cfg.blocks|
  {
    var from := cfg.blocks[p];
    from.cond.Some? && |from.succs| == 2 && from.succs[0] != from.succs[1] && Some(b) in from.succs
  }

  /** A recorded exit reaches b over the edge from p: refined on a side of a branch, pruned or unchanged. */
  ghost predicate Carries<S(!new), E(!new), Cond(!new)>(
    cfg: Graph<E, Cond>, an: Analysis<S, E, Cond>, exits: map<BlockId, S>, p: BlockId, b: BlockId, r: Option<S>)
    requires p < |cfg.blocks| && p in exits
  {
    if Side(cfg, p, b) then
      var (leaf, flip) := an.edgeCondition(cfg.blocks[p].cond.value);
      var onTrue := cfg.blocks[p].succs[0] == Some(b);
      var taken := if flip then !onTrue else onTrue;
      if an.infeasible(leaf, taken) then r.None?
      else r == Some(if an.refine.Some? then an.refine.value(leaf, taken, exits[p]) else exits[p])
    else r == Some(exits[p])
  }

  /** One entry for each predecessor: what its edge carries, nothing when it was never left. */
  ghost predicate CarriedIn<S(!new), E(!new), Cond(!new)>(
    cfg: Graph<E, Cond>, an: Analysis<S, E, Cond>, exits: map<BlockId, S>, b: BlockId, carried: seq<Option<S>>)
    requires b < |cfg.blocks|
  {
    && |carried| == |cfg.blocks[b].preds|
    && forall i :: 0 <= i < |carried| ==>
         var p := cfg.blocks[b].preds[i];
         assert p in cfg.blocks[b].preds;
         if p.Some? && p.value in exits then Carries(cfg, an, exits, p.value, b, carried[i]) else carried[i].None?
  }

  /** The states that are there, joined from left to right. */
  function Joined<S, E, Cond>(an: Analysis<S, E, Cond>, carried: seq<Option<S>>): Option<S> {
    if carried == [] then None
    else
      var before, last := Joined(an, carried[..|carried| - 1]), carried[|carried| - 1];
      if before.None? then last else if last.None? then before else Some(an.merge(before.value, last.value))
  }

  lemma ContributionCarried<S(!new), E(!new), Cond(!new)>(
    cfg: Graph<E, Cond>, an: Analysis<S, E, Cond>, exits: map<BlockId, S>, p: BlockId, b: BlockId, r: Option<S>)
    requires p < |cfg.blocks| && p in exits && Carries(cfg, an, exits, p, b, r)
    ensures Contribution(cfg, an, exits, Some(p), b) == r
  {
  }

  lemma {:induction false} MergedPredsCarried<S(!new), E(!new), Cond(!new)>(
    cfg: Graph<E, Cond>, an: Analysis<S, E, Cond>, exits: map<BlockId, S>, b: BlockId, n: nat, carried: seq<Option<S>>)
    requires b < |cfg.blocks| && CarriedIn(cfg, an, exits, b, carried) && n <= |carried|
    ensures MergedPreds(cfg, an, exits, b, n) == Joined(an, carried[..n])
  {
    hide Contribution, Carries;
    if n > 0 {
      var p := cfg.blocks[b].preds[n - 1];
      assert p in cfg.blocks[b].preds;
      assert carried[..n][..n - 1] == carried[..n - 1] && carried[..n][n - 1] == carried[n - 1];
      MergedPredsCarried(cfg, an, exits, b, n - 1, carried);
      if p.Some? && p.value in exits {
        ContributionCarried(cfg, an, exits, p.value, b, carried[n - 1]);
      } else {
        NothingContributed(cfg, an, exits, p, b);
      }
    }
  }

  lemma NothingContributed<S(!new), E(!new), Cond(!new)>(
    cfg: Graph<E, Cond>, an: Analysis<S, E, Cond>, exits: map<BlockId, S>, p: Option<BlockId>, b: BlockId)
    requires p.None? || p.value !in exits
    requires p.Some? ==> p.value < |cfg.blocks|
    ensures Contribution(cfg, an, exits, p, b).None?
  {
  }

  // --- The selection rewind ---

  /** b joins the two arms of a selection that hang from g and from nothing else. */
  ghost predicate JoinsArms<E, Cond>(cfg: Graph<E, Cond>, g: BlockId, onTrue: BlockId, onFalse: BlockId, b: BlockId) {
    && g < |cfg.blocks| && b < |cfg.blocks| && onTrue < |cfg.blocks| && onFalse < |cfg.blocks| && onTrue != onFalse
    && (cfg.blocks[b].preds == [Some(onTrue), Some(onFalse)] || cfg.blocks[b].preds == [Some(onFalse), Some(onTrue)])
    && cfg.blocks[onTrue].preds == [Some(g)] && cfg.blocks[onFalse].preds == [Some(g)]
    && cfg.blocks[g].isSelection && cfg.blocks[g].cond.Some? && cfg.blocks[g].succs == [Some(onTrue), Some(onFalse)]
  }

  /** Each arm was left in the state its side of the condition entered it with. */
  ghost predicate ArmsUnchanged<S(!new), E(!new), Cond(!new)>(
    cfg: Graph<E, Cond>, an: Analysis<S, E, Cond>, exits: map<BlockId, S>, g: BlockId, onTrue: BlockId, onFalse: BlockId)
    requires g < |cfg.blocks| && cfg.blocks[g].cond.Some?
  {
    && an.refine.Some? && g in exits && onTrue in exits && onFalse in exits
    && var (leaf, flip) := an.edgeCondition(cfg.blocks[g].cond.value);
       exits[onTrue] == an.refine.value(leaf, !flip, exits[g]) && exits[onFalse] == an.refine.value(leaf, flip, exits[g])
  }

  /** At the join of a selection the rewind happens exactly when the arms changed nothing, and restores the state before it. */
  lemma RewindExact<S(!new), E(!new), Cond(!new)>(
    cfg: Graph<E, Cond>, an: Analysis<S, E, Cond>, exits: map<BlockId, S>, g: BlockId, onTrue: BlockId, onFalse: BlockId, b: BlockId)
    requires JoinsArms(cfg, g, onTrue, onFalse, b)
    ensures Rewind(cfg, an, exits, b) == if ArmsUnchanged(cfg, an, exits, g, onTrue, onFalse) then Some(exits[g]) else None
    ensures ArmsUnchanged(cfg, an, exits, g, onTrue, onFalse) ==> ComputeEntry(cfg, an, exits, b) == Entry(exits[g], true)
  {
    assert Some(onTrue) in cfg.blocks[b].preds && Some(onFalse) in cfg.blocks[b].preds;
    assert SelectionHead(cfg, b) == Some(g);
  }

  /** Anywhere else there is no rewind. */
  lemma NoRewindElsewhere<S(!new), E(!new), Cond(!new)>(cfg: Graph<E, Cond>, an: Analysis<S, E, Cond>, exits: map<BlockId, S>, b: BlockId)
    requires b < |cfg.blocks|
    requires |cfg.blocks[b].preds| != 2 || an.refine.None?
    ensures Rewind(cfg, an, exits, b).None?
  {
  }

  // --- The entry of a block ---

  /**
   Without a rewind, a block is entered in the join, in the order of its predecessors, of
   exactly the states their edges carry; it is not entered when they carry none.
   */
  lemma EntryJoinsEdges<S(!new), E(!new), Cond(!new)>(
    cfg: Graph<E, Cond>, an: Analysis<S, E, Cond>, exits: map<BlockId, S>, b: BlockId, carried: seq<Option<S>>)
    requires b < |cfg.blocks| && CarriedIn(cfg, an, exits, b, carried) && Rewind(cfg, an, exits, b).None?
    ensures var joined := Joined(an, carried);
            ComputeEntry(cfg, an, exits, b) == if joined.Some? then Entry(joined.value, true) else Entry(an.initial, false)
  {
    hide Rewind;
    assert carried[..|carried|] == carried;
    MergedPredsCarried(cfg, an, exits, b, |carried|, carried);
  }

  /** Behind one side of a branch and nothing else, a block is entered in the refined state, or not at all. */
  lemma EntryBehindBranch<S(!new), E(!new), Cond(!new)>(
    cfg: Graph<E, Cond>, an: Analysis<S, E, Cond>, exits: map<BlockId, S>, p: BlockId, b: BlockId, onTrue: bool)
    requires p < |cfg.blocks| && b < |cfg.blocks| && cfg.blocks[b].preds == [Some(p)] && cfg.blocks[p].cond.Some?
    requires |cfg.blocks[p].succs| == 2 && cfg.blocks[p].succs[0] != cfg.blocks[p].succs[1]
    requires cfg.blocks[p].succs[if onTrue then 0 else 1] == Some(b)
    ensures var (leaf, flip) := an.edgeCondition(cfg.blocks[p].cond.value);
            var taken := if flip then !onTrue else onTrue;
            ComputeEntry(cfg, an, exits, b) ==
              if p !in exits || an.infeasible(leaf, taken) then Entry(an.initial, false)
              else Entry(if an.refine.Some? then an.refine.value(leaf, taken, exits[p]) else exits[p], true)
  {
    var (leaf, flip) := an.edgeCondition(cfg.blocks[p].cond.value);
    var taken := if flip then !onTrue else onTrue;
    var r := if p !in exits || an.infeasible(leaf, taken) then None
             else Some(if an.refine.Some? then an.refine.value(leaf, taken, exits[p]) else exits[p]);
    assert Side(cfg, p, b);
    assert p in exits ==> Carries(cfg, an, exits, p, b, r);
    NoRewindElsewhere(cfg, an, exits, b);
    EntryJoinsEdges(cfg, an, exits, b, [r]);
    assert [r][..0] == [] && [r][0] == r;
  }

  // --- Blocks no edge leads into ---

  /** Whatever is recorded, no predecessor's edge carries anything. */
  ghost predicate CutOff<S(!new), E(!new), Cond(!new)>(cfg: Graph<E, Cond>, an: Analysis<S, E, Cond>, b: BlockId)
    requires b < |cfg.blocks|
  {
    forall p: BlockId :: Some(p) in cfg.blocks[b].preds ==>
      p < |cfg.blocks| && Side(cfg, p, b) &&
      var (leaf, flip) := an.edgeCondition(cfg.blocks[p].cond.value);
      an.infeasible(leaf, (cfg.blocks[p].succs[0] == Some(b)) != flip)
  }

  lemma {:induction false} NothingMerged<S(!new), E(!new), Cond(!new)>(
    cfg: Graph<E, Cond>, an: Analysis<S, E, Cond>, exits: map<BlockId, S>, b: BlockId, n: nat)
    requires b < |cfg.blocks| && CutOff(cfg, an, b) && n <= |cfg.blocks[b].preds|
    ensures MergedPreds(cfg, an, exits, b, n).None?
  {
    if n > 0 {
      assert cfg.blocks[b].preds[n - 1] in cfg.blocks[b].preds;
      NothingMerged(cfg, an, exits, b, n - 1);
    }
  }

  lemma NotEntered<S(!new), E(!new), Cond(!new)>(cfg: Graph<E, Cond>, an: Analysis<S, E, Cond>, exits: map<BlockId, S>, b: BlockId)
    requires b < |cfg.blocks| && CutOff(cfg, an, b) && SelectionHead(cfg, b).None?
    ensures !ComputeEntry(cfg, an, exits, b).hasPreds
  {
    NothingMerged(cfg, an, exits, b, |cfg.blocks[b].preds|);
  }

  lemma SkippedNoExit<S(!new), E(!new), Cond(!new)>(cfg: Graph<E, Cond>, an: Analysis<S, E, Cond>, eng: Engine<S>, b: BlockId)
    requires b < |cfg.blocks| && eng.worklist != [] && QueueOk(eng.worklist, |cfg.blocks|) && b !in eng.exits
    requires (!ComputeEntry(cfg, an, eng.exits, b).hasPreds && b != cfg.entry) || Stops(an, cfg.blocks[b])
    ensures b !in Visit(cfg, an, eng).exits
  {
    var start := StartState(an, eng, b, ComputeEntry(cfg, an, eng.exits, b).state);
    if Stops(an, cfg.blocks[b]) {
      StoppedNoExit(an, cfg.blocks[b], start);
    }
    hide ComputeEntry, ExitOf, StartState, Enqueued;
  }

  /** Control does not leave the block: it calls something that does not return. */
  predicate Stops<S, E, Cond>(an: Analysis<S, E, Cond>, block: Block<E, Cond>) {
    block.noReturn || exists i :: 0 <= i < |block.elems| && an.fatal(block.elems[i])
  }

  lemma {:induction false} FatalStops<S, E, Cond>(an: Analysis<S, E, Cond>, elems: seq<E>, s: S, i: nat)
    requires i < |elems| && an.fatal(elems[i])
    ensures Transferred(an, elems, s).None?
    decreases i
  {
    if i > 0 && !an.fatal(elems[0]) {
      FatalStops(an, elems[1..], an.transfer(elems[0], an.guard(elems[0], s)), i - 1);
    }
  }

  lemma StoppedNoExit<S, E, Cond>(an: Analysis<S, E, Cond>, block: Block<E, Cond>, s: S)
    requires Stops(an, block)
    ensures ExitOf(an, block, s).None?
  {
    if !block.noReturn {
      var i :| 0 <= i < |block.elems| && an.fatal(block.elems[i]);
      FatalStops(an, block.elems, s, i);
    }
  }

  /** A block whose incoming edges are all pruned is never entered, and nothing in it is reported. */
  lemma PrunedNeverReported<S(!new), E(!new), Cond(!new)>(cfg: Graph<E, Cond>, an: Analysis<S, E, Cond>, b: BlockId, i: nat)
    requires b < |cfg.blocks| && b != cfg.entry && CutOff(cfg, an, b) && SelectionHead(cfg, b).None?
    ensures b !in Solve(cfg, an).exits && (b, i) !in Solve(cfg, an).report
  {
    hide CutOff, ComputeEntry, Visit, SelectionHead;
    var p := (e: Engine<S>) => b !in e.exits;
    forall e: Engine<S> | e.worklist != [] && QueueOk(e.worklist, |cfg.blocks|) && p(e)
      ensures p(Visit(cfg, an, e))
    {
      NotEntered(cfg, an, e.exits, b);
      SkippedNoExit(cfg, an, e, b);
    }
    IterateInduction(cfg, an, Start(cfg), MaxIterations(cfg, an), p);
    var exits := Solve(cfg, an).exits;
    NotEntered(cfg, an, exits, b);
    DS.ReportFrame(cfg, an, exits, b, i, |cfg.blocks|);
    UnreportedBefore(cfg, an, exits, b, i, b);
  }

  lemma {:induction false} UnreportedBefore<S(!new), E(!new), Cond(!new)>(
    cfg: Graph<E, Cond>, an: Analysis<S, E, Cond>, exits: map<BlockId, S>, b: BlockId, i: nat, n: nat)
    requires n <= b < |cfg.blocks|
    ensures (b, i) !in Report(cfg, an, exits, n)
  {
    hide ComputeEntry;
    if n > 0 {
      UnreportedBefore(cfg, an, exits, b, i, n - 1);
      DS.ReportElemsFrame(an, n - 1, cfg.blocks[n - 1].elems, 0, ComputeEntry(cfg, an, exits, n - 1).state,
                          Report(cfg, an, exits, n - 1), (b, i));
    }
  }

  /** A block that stops control never has an exit. */
  lemma StoppedNeverLeft<S(!new), E(!new), Cond(!new)>(cfg: Graph<E, Cond>, an: Analysis<S, E, Cond>, b: BlockId)
    requires b < |cfg.blocks| && Stops(an, cfg.blocks[b])
    ensures b !in Solve(cfg, an).exits
  {
    hide ComputeEntry, Visit, Stops;
    var p := (e: Engine<S>) => b !in e.exits;
    forall e: Engine<S> | e.worklist != [] && QueueOk(e.worklist, |cfg.blocks|) && p(e)
      ensures p(Visit(cfg, an, e))
    {
      SkippedNoExit(cfg, an, e, b);
    }
    IterateInduction(cfg, an, Start(cfg), MaxIterations(cfg, an), p);
  }

  // --- The entry block ---

  lemma EntryLeftAlone<S(!new), E(!new), Cond(!new)>(cfg: Graph<E, Cond>, an: Analysis<S, E, Cond>, eng: Engine<S>)
    requires eng.worklist != [] && QueueOk(eng.worklist, |cfg.blocks|) && cfg.entry !in eng.worklist
    ensures var r := Visit(cfg, an, eng);
            && cfg.entry !in r.worklist && (cfg.entry in r.exits <==> cfg.entry in eng.exits)
            && (cfg.entry in eng.exits ==> r.exits[cfg.entry] == eng.exits[cfg.entry])
  {
    var b, rest := eng.worklist[0], eng.worklist[1..];
    FrontLeaves(eng.worklist, |cfg.blocks|);
    SuccessorsInGraph(cfg, b);
    EnqueuedExact(rest, cfg.blocks[b].succs, |cfg.blocks|);
    assert Some(cfg.entry) !in cfg.blocks[b].succs;
    hide ComputeEntry, ExitOf, StartState, Enqueued;
  }

  /** The entry block is not queued, and its exit is what its elements make of the initial state. */
  ghost predicate EntryDone<S, E, Cond>(cfg: Graph<E, Cond>, an: Analysis<S, E, Cond>, eng: Engine<S>) {
    var exit := ExitOf(an, cfg.blocks[cfg.entry], an.initial);
    cfg.entry !in eng.worklist && (cfg.entry in eng.exits <==> exit.Some?) && (exit.Some? ==> eng.exits[cfg.entry] == exit.value)
  }

  lemma EntryStaysDone<S(!new), E(!new), Cond(!new)>(cfg: Graph<E, Cond>, an: Analysis<S, E, Cond>, eng: Engine<S>)
    requires eng.worklist != [] && QueueOk(eng.worklist, |cfg.blocks|) && EntryDone(cfg, an, eng)
    ensures EntryDone(cfg, an, Visit(cfg, an, eng))
  {
    EntryLeftAlone(cfg, an, eng);
    hide Visit, ExitOf;
  }

  lemma AfterFirst<S(!new), E(!new), Cond(!new)>(cfg: Graph<E, Cond>, an: Analysis<S, E, Cond>)
    ensures var start: Engine<S> := Start(cfg);
            QueueOk(start.worklist, |cfg.blocks|) && start.worklist != [] &&
            var first := Visit(cfg, an, start);
            QueueOk(first.worklist, |cfg.blocks|) && EntryDone(cfg, an, first) &&
            Iterate(cfg, an, start, MaxIterations(cfg, an)) == Iterate(cfg, an, first, MaxIterations(cfg, an) - 1)
  {
    FirstOfEntry(cfg, an);
    CapPositive(cfg, an);
    VisitKeepsQueue(cfg, an, Start(cfg));
    hide Visit, ExitOf, MaxIterations;
  }

  /** The entry block is left in what its elements make of the initial state, and never visited again. */
  lemma EntryVisitedOnce<S(!new), E(!new), Cond(!new)>(cfg: Graph<E, Cond>, an: Analysis<S, E, Cond>)
    ensures var exits, exit := Solve(cfg, an).exits, ExitOf(an, cfg.blocks[cfg.entry], an.initial);
            (cfg.entry in exits <==> exit.Some?) && (exit.Some? ==> exits[cfg.entry] == exit.value)
  {
    AfterFirst(cfg, an);
    hide Visit, ExitOf, Iterate, MaxIterations, Report, QueueOk;
    var p := (e: Engine<S>) => EntryDone(cfg, an, e);
    forall e: Engine<S> | e.worklist != [] && QueueOk(e.worklist, |cfg.blocks|) && p(e)
      ensures p(Visit(cfg, an, e))
    {
      EntryStaysDone(cfg, an, e);
    }
    CapPositive(cfg, an);
    IterateInduction(cfg, an, Visit(cfg, an, Start(cfg)), MaxIterations(cfg, an) - 1, p);
  }

  lemma CapPositive<S, E, Cond>(cfg: Graph<E, Cond>, an: Analysis<S, E, Cond>)
    ensures MaxIterations(cfg, an) > 0
  {
    assert |cfg.blocks| * (an.latticeHeight + 2) >= 1 * (an.latticeHeight + 2);
  }

  lemma FirstOfEntry<S(!new), E(!new), Cond(!new)>(cfg: Graph<E, Cond>, an: Analysis<S, E, Cond>)
    ensures var start: Engine<S> := Start(cfg);
            var exit := ExitOf(an, cfg.blocks[cfg.entry], an.initial);
            && QueueOk(start.worklist, |cfg.blocks|) && start.worklist != []
            && var first := Visit(cfg, an, start);
               && cfg.entry !in first.worklist && (cfg.entry in first.exits <==> exit.Some?)
               && (exit.Some? ==> first.exits[cfg.entry] == exit.value)
  {
    var start: Engine<S> := Start(cfg);
    SuccessorsInGraph(cfg, cfg.entry);
    var none: seq<BlockId> := [];
    assert start.worklist[1..] == none;
    EnqueuedExact(none, cfg.blocks[cfg.entry].succs, |cfg.blocks|);
    assert Some(cfg.entry) !in cfg.blocks[cfg.entry].succs;
    assert ComputeEntry(cfg, an, start.exits, cfg.entry) == Entry(an.initial, false);
    hide ExitOf, Enqueued, ComputeEntry;
  }

  // --- The report ---

  /** The states between the elements: each guard is applied before the element's transfer. */
  ghost predicate Traces<S, E, Cond>(an: Analysis<S, E, Cond>, elems: seq<E>, states: seq<S>) {
    && |states| == |elems| + 1
    && forall i :: 0 <= i < |elems| ==> states[i + 1] == an.transfer(elems[i], an.guard(elems[i], states[i]))
  }

  /** Without a call that does not return, a block turns the state it starts from into the last of them. */
  lemma {:induction false} TransferredIsLast<S, E, Cond>(an: Analysis<S, E, Cond>, elems: seq<E>, states: seq<S>)
    requires Traces(an, elems, states) && forall i :: 0 <= i < |elems| ==> !an.fatal(elems[i])
    ensures Transferred(an, elems, states[0]) == Some(states[|elems|])
  {
    if elems != [] {
      var rest := states[1..];
      forall i | 0 <= i < |elems[1..]|
        ensures rest[i + 1] == an.transfer(elems[1..][i], an.guard(elems[1..][i], rest[i]))
      {
        assert states[(i + 1) + 1] == an.transfer(elems[i + 1], an.guard(elems[i + 1], states[i + 1]));
      }
      TransferredIsLast(an, elems[1..], rest);
    }
  }

  /** Every visit records exactly that of the state it starts from, and nothing when control stops. */
  lemma VisitedExitExact<S(!new), E(!new), Cond(!new)>(
    cfg: Graph<E, Cond>, an: Analysis<S, E, Cond>, eng: Engine<S>, b: BlockId, rest: seq<BlockId>, s: S, states: seq<S>)
    requires b < |cfg.blocks| && Traces(an, cfg.blocks[b].elems, states) && states[0] == StartState(an, eng, b, s)
    ensures var r := Visited(cfg, an, eng, b, rest, s);
            if Stops(an, cfg.blocks[b]) then r.exits == eng.exits
            else b in r.exits && r.exits[b] == states[|cfg.blocks[b].elems|] && forall k :: k != b && k in eng.exits ==> k in r.exits && r.exits[k] == eng.exits[k]
  {
    var start := StartState(an, eng, b, s);
    if Stops(an, cfg.blocks[b]) {
      StoppedNoExit(an, cfg.blocks[b], start);
    } else {
      TransferredIsLast(an, cfg.blocks[b].elems, states);
    }
    hide StartState, Transferred, Enqueued, Traces, Stops;
  }

  lemma {:induction false} ReportElemsExact<S, E, Cond>(
    an: Analysis<S, E, Cond>, b: BlockId, elems: seq<E>, states: seq<S>, i: nat, log: map<(BlockId, nat), S>, j: nat)
    requires Traces(an, elems, states) && i <= j < |elems| && (b, j) !in log
    ensures var r := ReportElems(an, b, elems, i, states[i], log);
            && ((b, j) in r <==> forall k :: i <= k <= j ==> !an.fatal(elems[k]))
            && ((b, j) in r ==> r[(b, j)] == an.guard(elems[j], states[j]))
    decreases j - i
  {
    if !an.fatal(elems[i]) {
      var before := an.guard(elems[i], states[i]);
      if i == j {
        DS.ReportElemsFrame(an, b, elems, i + 1, states[i + 1], log[(b, i) := before], (b, j));
      } else {
        ReportElemsExact(an, b, elems, states, i + 1, log[(b, i) := before], j);
      }
    }
  }

  /**
   The report holds an element exactly when its block is entered and no element up to it is
   fatal, with the guarded state that the elements before it make of the entry state.
   */
  lemma ReportExact<S(!new), E(!new), Cond(!new)>(
    cfg: Graph<E, Cond>, an: Analysis<S, E, Cond>, b: BlockId, states: seq<S>, j: nat)
    requires b < |cfg.blocks| && j < |cfg.blocks[b].elems| && Traces(an, cfg.blocks[b].elems, states)
    requires states[0] == ComputeEntry(cfg, an, Solve(cfg, an).exits, b).state
    ensures var report, elems := Solve(cfg, an).report, cfg.blocks[b].elems;
            && ((b, j) in report <==>
                (ComputeEntry(cfg, an, Solve(cfg, an).exits, b).hasPreds || b == cfg.entry) &&
                forall k :: 0 <= k <= j ==> !an.fatal(elems[k]))
            && ((b, j) in report ==> report[(b, j)] == an.guard(elems[j], states[j]))
  {
    hide ComputeEntry, Traces;
    var exits := Solve(cfg, an).exits;
    DS.ReportFrame(cfg, an, exits, b, j, |cfg.blocks|);
    UnreportedBefore(cfg, an, exits, b, j, b);
    ReportElemsExact(an, b, cfg.blocks[b].elems, states, 0, Report(cfg, an, exits, b), j);
  }

  /** A first element that is not fatal is recorded exactly when its block is entered, in the guarded entry state. */
  lemma FirstRecorded<S(!new), E(!new), Cond(!new)>(cfg: Graph<E, Cond>, an: Analysis<S, E, Cond>, b: BlockId)
    requires b < |cfg.blocks| && cfg.blocks[b].elems != [] && !an.fatal(cfg.blocks[b].elems[0])
    ensures var r := Solve(cfg, an);
            var entry := ComputeEntry(cfg, an, r.exits, b);
            && ((b, 0) in r.report <==> entry.hasPreds || b == cfg.entry)
            && ((b, 0) in r.report ==> r.report[(b, 0)] == an.guard(cfg.blocks[b].elems[0], entry.state))
  {
    hide ComputeEntry, Solve;
    var elems := cfg.blocks[b].elems;
    var states := TraceFrom(an, elems, ComputeEntry(cfg, an, Solve(cfg, an).exits, b).state);
    ReportExact(cfg, an, b, states, 0);
  }

  ghost function TraceFrom<S, E, Cond>(an: Analysis<S, E, Cond>, elems: seq<E>, s: S): (r: seq<S>)
    ensures Traces(an, elems, r) && r[0] == s
  {
    if elems == [] then [s]
    else
      var n := |elems| - 1;
      var before := TraceFrom(an, elems[..n], s);
      before + [an.transfer(elems[n], an.guard(elems[n], before[n]))]
  }
}
