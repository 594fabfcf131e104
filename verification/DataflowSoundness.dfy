/**
 Soundness of the engine against concrete runs, from local laws of the analysis alone: no
 monotonicity is assumed, and nothing is said about the order of states.
 */
module DataflowSoundness {
  import opened Int64
  import opened Dataflow

  /**
   What the abstract states mean. ok: the states the laws speak about; gamma: the concrete
   states a state describes; step: the effect of an element; takes: a condition can go a given way.
   */
  datatype Meaning<!S, !C, !E, !Cond> = Meaning(
    ok: S -> bool,
    gamma: (S, C) -> bool,
    step: (E, C, C) -> bool,
    takes: (Cond, bool, C) -> bool)

  /** Every operation of the analysis is locally sound, and refinement only shrinks a state. */
  ghost predicate LocallySound<S(!new), C(!new), E(!new), Cond(!new)>(an: Analysis<S, E, Cond>, m: Meaning<S, C, E, Cond>) {
    && m.ok(an.initial)
    && (forall a, b {:trigger an.merge(a, b)} :: m.ok(a) && m.ok(b) ==> m.ok(an.merge(a, b)))
    && (forall a, b, c {:trigger m.gamma(an.merge(a, b), c)} ::
          m.ok(a) && m.ok(b) && (m.gamma(a, c) || m.gamma(b, c)) ==> m.gamma(an.merge(a, b), c))
    && (forall e, s {:trigger an.guard(e, s)} :: m.ok(s) ==> m.ok(an.guard(e, s)))
    && (forall e, s {:trigger an.transfer(e, s)} :: m.ok(s) ==> m.ok(an.transfer(e, s)))
    && (forall e, s, c, c' {:trigger m.gamma(s, c), m.step(e, c, c')} ::
          m.ok(s) && m.gamma(s, c) && m.step(e, c, c') ==>
            m.gamma(an.guard(e, s), c) && m.gamma(an.transfer(e, s), c') && !an.fatal(e))
    && (an.refine.Some? ==> RefineSound(an.refine.value, m))
    && (an.widen.Some? ==> WidenSound(an.widen.value, m))
    && (forall cond, taken, c {:trigger an.infeasible(cond, taken), m.takes(cond, taken, c)} ::
          m.takes(cond, taken, c) ==> !an.infeasible(cond, taken))
    && (forall cond, taken, c {:trigger an.edgeCondition(cond), m.takes(cond, taken, c)} ::
          m.takes(cond, taken, c) ==> m.takes(an.edgeCondition(cond).0, taken != an.edgeCondition(cond).1, c))
  }

  ghost predicate RefineSound<S(!new), C(!new), E, Cond(!new)>(refine: (Cond, bool, S) -> S, m: Meaning<S, C, E, Cond>) {
    && (forall cond, taken, s {:trigger refine(cond, taken, s)} :: m.ok(s) ==> m.ok(refine(cond, taken, s)))
    && (forall cond, taken, s, c {:trigger m.gamma(refine(cond, taken, s), c)} ::
          m.ok(s) && m.gamma(s, c) && m.takes(cond, taken, c) ==> m.gamma(refine(cond, taken, s), c))
    && (forall cond, taken, s, c {:trigger m.gamma(refine(cond, taken, s), c)} ::
          m.ok(s) && m.gamma(refine(cond, taken, s), c) ==> m.gamma(s, c))
  }

  ghost predicate WidenSound<S(!new), C(!new), E, Cond>(widen: S -> S, m: Meaning<S, C, E, Cond>) {
    && (forall s {:trigger widen(s)} :: m.ok(s) ==> m.ok(widen(s)))
    && (forall s, c {:trigger m.gamma(widen(s), c)} :: m.ok(s) && m.gamma(s, c) ==> m.gamma(widen(s), c))
  }

  // --- Concrete runs ---

  ghost predicate Executes<S, C(!new), E, Cond>(m: Meaning<S, C, E, Cond>, elems: seq<E>, c: C, c': C) {
    if elems == [] then c == c'
    else exists mid :: m.step(elems[0], c, mid) && Executes(m, elems[1..], mid, c')
  }

  /** Control leaves block a through its k-th successor; a two-way branch does so by its condition. */
  ghost predicate Follows<S, C, E, Cond>(
    cfg: Graph<E, Cond>, m: Meaning<S, C, E, Cond>, a: BlockId, k: nat, c: C, b: BlockId)
    requires a < |cfg.blocks|
  {
    var from := cfg.blocks[a];
    && k < |from.succs| && from.succs[k] == Some(b)
    && (|from.succs| == 2 && from.cond.Some? ==> m.takes(from.cond.value, k == 0, c))
  }

  /** From the start of block a in state c, the run goes on to the start of block b in state c'. */
  ghost predicate Moves<S, C(!new), E, Cond>(
    cfg: Graph<E, Cond>, m: Meaning<S, C, E, Cond>, a: BlockId, c: C, b: BlockId, c': C)
  {
    && a < |cfg.blocks| && !cfg.blocks[a].noReturn
    && Executes(m, cfg.blocks[a].elems, c, c')
    && exists k: nat :: Follows(cfg, m, a, k, c', b)
  }

  /** A run of the function: the blocks it enters and the states it enters them in. */
  ghost predicate IsRun<S, C(!new), E, Cond>(
    cfg: Graph<E, Cond>, m: Meaning<S, C, E, Cond>, initial: S, run: seq<(BlockId, C)>)
  {
    && run != []
    && run[0].0 == cfg.entry && m.gamma(initial, run[0].1)
    && forall i {:trigger run[i]} :: 0 < i < |run| ==> Moves(cfg, m, run[i - 1].0, run[i - 1].1, run[i].0, run[i].1)
  }

  // --- What a state covers ---

  ghost predicate Below<S, C(!new), E, Cond>(m: Meaning<S, C, E, Cond>, a: S, b: S) {
    forall c :: m.gamma(a, c) ==> m.gamma(b, c)
  }

  ghost predicate ExitsOk<S, C, E, Cond>(m: Meaning<S, C, E, Cond>, exits: map<BlockId, S>) {
    forall b :: b in exits ==> m.ok(exits[b])
  }

  /** u describes everything the recorded exits send into b, and the initial state at the entry. */
  ghost predicate CoversEdges<S, C(!new), E, Cond>(
    cfg: Graph<E, Cond>, an: Analysis<S, E, Cond>, m: Meaning<S, C, E, Cond>, exits: map<BlockId, S>, u: S, b: BlockId)
    requires b < |cfg.blocks|
  {
    && (b == cfg.entry ==> Below(m, an.initial, u))
    && forall p :: p in cfg.blocks[b].preds ==>
         var s := Contribution(cfg, an, exits, p, b);
         s.Some? ==> Below(m, s.value, u)
  }

  lemma RefineLaws<S(!new), C(!new), E(!new), Cond(!new)>(
    an: Analysis<S, E, Cond>, m: Meaning<S, C, E, Cond>, cond: Cond, taken: bool, s: S)
    requires LocallySound(an, m) && m.ok(s)
    ensures var r := Refine(an, cond, taken, s);
            && m.ok(r) && Below(m, r, s)
            && forall c :: m.gamma(s, c) && m.takes(cond, taken, c) ==> m.gamma(r, c)
  {
    if an.refine.Some? {
      var refine := an.refine.value;
      assert RefineSound(refine, m);
      var r := refine(cond, taken, s);
      assert r == Refine(an, cond, taken, s);
      forall c
        ensures m.gamma(r, c) ==> m.gamma(s, c)
        ensures m.gamma(s, c) && m.takes(cond, taken, c) ==> m.gamma(r, c)
      {
      }
    }
  }

  lemma ContributionOk<S(!new), C(!new), E(!new), Cond(!new)>(
    cfg: Graph<E, Cond>, an: Analysis<S, E, Cond>, m: Meaning<S, C, E, Cond>, exits: map<BlockId, S>, p: Option<BlockId>, b: BlockId)
    requires LocallySound(an, m) && ExitsOk(m, exits)
    requires p.Some? ==> p.value < |cfg.blocks|
    ensures var s := Contribution(cfg, an, exits, p, b);
            s.Some? ==> m.ok(s.value) && Below(m, s.value, exits[p.value])
  {
    if Contribution(cfg, an, exits, p, b).Some? {
      var from := cfg.blocks[p.value];
      if from.cond.Some? {
        var (leaf, flip) := an.edgeCondition(from.cond.value);
        RefineLaws(an, m, leaf, true, exits[p.value]);
        RefineLaws(an, m, leaf, false, exits[p.value]);
      }
    }
  }

  lemma {:induction false} MergedPredsCover<S(!new), C(!new), E(!new), Cond(!new)>(
    cfg: Graph<E, Cond>, an: Analysis<S, E, Cond>, m: Meaning<S, C, E, Cond>, exits: map<BlockId, S>, b: BlockId, n: nat)
    requires LocallySound(an, m) && ExitsOk(m, exits)
    requires b < |cfg.blocks| && n <= |cfg.blocks[b].preds|
    ensures var r := MergedPreds(cfg, an, exits, b, n);
            && (r.Some? ==> m.ok(r.value))
            && forall i {:trigger cfg.blocks[b].preds[i]} :: 0 <= i < n ==>
                 var s := Contribution(cfg, an, exits, cfg.blocks[b].preds[i], b);
                 s.Some? ==> r.Some? && Below(m, s.value, r.value)
  {
    if n > 0 {
      MergedPredsCover(cfg, an, m, exits, b, n - 1);
      var p := cfg.blocks[b].preds[n - 1];
      assert p in cfg.blocks[b].preds;
      ContributionOk(cfg, an, m, exits, p, b);
    }
  }

  lemma RewindCovers<S(!new), C(!new), E(!new), Cond(!new)>(
    cfg: Graph<E, Cond>, an: Analysis<S, E, Cond>, m: Meaning<S, C, E, Cond>, exits: map<BlockId, S>, b: BlockId)
    requires LocallySound(an, m) && ExitsOk(m, exits)
    requires b < |cfg.blocks| && Rewind(cfg, an, exits, b).Some?
    ensures CoversEdges(cfg, an, m, exits, Rewind(cfg, an, exits, b).value, b)
  {
    var u := Rewind(cfg, an, exits, b).value;
    var head := SelectionHead(cfg, b).value;
    RewindParts(cfg, an, exits, b);
    hide Rewind, SelectionHead, ExitsOk;
    var (leaf, flip) := an.edgeCondition(cfg.blocks[head].cond.value);
    ExitIsOk(m, exits, head);
    RefineLaws(an, m, leaf, true, u);
    RefineLaws(an, m, leaf, false, u);
    hide LocallySound;
    forall p | p in cfg.blocks[b].preds && Contribution(cfg, an, exits, p, b).Some?
      ensures Below(m, Contribution(cfg, an, exits, p, b).value, u)
    {
      ContributionOk(cfg, an, m, exits, p, b);
      assert Below(m, exits[p.value], u);
    }
  }

  lemma ExitIsOk<S, C, E, Cond>(m: Meaning<S, C, E, Cond>, exits: map<BlockId, S>, b: BlockId)
    requires ExitsOk(m, exits) && b in exits
    ensures m.ok(exits[b])
  {
  }

  /** The rewound state is the exit of the head, and both arms left with a refinement of it. */
  lemma RewindParts<S, E, Cond>(cfg: Graph<E, Cond>, an: Analysis<S, E, Cond>, exits: map<BlockId, S>, b: BlockId)
    requires b < |cfg.blocks| && Rewind(cfg, an, exits, b).Some?
    ensures SelectionHead(cfg, b).Some? && b != cfg.entry
    ensures var head, u := SelectionHead(cfg, b).value, Rewind(cfg, an, exits, b).value;
            && head < |cfg.blocks| && cfg.blocks[head].cond.Some? && head in exits && exits[head] == u
            && var (leaf, flip) := an.edgeCondition(cfg.blocks[head].cond.value);
               forall p :: p in cfg.blocks[b].preds ==>
                 p.Some? && p.value in exits &&
                 (exits[p.value] == Refine(an, leaf, true, u) || exits[p.value] == Refine(an, leaf, false, u))
  {
    hide Refine;
  }

  /** The computed entry state covers every edge into the block, on the rewind path as well. */
  lemma ComputeEntryCovers<S(!new), C(!new), E(!new), Cond(!new)>(
    cfg: Graph<E, Cond>, an: Analysis<S, E, Cond>, m: Meaning<S, C, E, Cond>, exits: map<BlockId, S>, b: BlockId)
    requires LocallySound(an, m) && ExitsOk(m, exits) && b < |cfg.blocks|
    ensures var r := ComputeEntry(cfg, an, exits, b);
            && m.ok(r.state)
            && CoversEdges(cfg, an, m, exits, r.state, b)
            && (!r.hasPreds ==> forall p :: p in cfg.blocks[b].preds ==> Contribution(cfg, an, exits, p, b).None?)
  {
    if Rewind(cfg, an, exits, b).Some? {
      RewindCovers(cfg, an, m, exits, b);
    } else {
      MergedPredsCover(cfg, an, m, exits, b, |cfg.blocks[b].preds|);
    }
  }

  lemma {:induction false} TransferredSound<S(!new), C(!new), E(!new), Cond(!new)>(
    an: Analysis<S, E, Cond>, m: Meaning<S, C, E, Cond>, elems: seq<E>, s: S, c: C, c': C)
    requires LocallySound(an, m) && m.ok(s) && m.gamma(s, c) && Executes(m, elems, c, c')
    ensures var r := Transferred(an, elems, s); r.Some? && m.ok(r.value) && m.gamma(r.value, c')
  {
    if elems != [] {
      var mid :| m.step(elems[0], c, mid) && Executes(m, elems[1..], mid, c');
      TransferredSound(an, m, elems[1..], an.transfer(elems[0], an.guard(elems[0], s)), mid, c');
    }
  }

  lemma {:induction false} TransferredOk<S(!new), C(!new), E(!new), Cond(!new)>(
    an: Analysis<S, E, Cond>, m: Meaning<S, C, E, Cond>, elems: seq<E>, s: S)
    requires LocallySound(an, m) && m.ok(s)
    ensures var r := Transferred(an, elems, s); r.Some? ==> m.ok(r.value)
  {
    if elems != [] {
      TransferredOk(an, m, elems[1..], an.transfer(elems[0], an.guard(elems[0], s)));
    }
  }

  // --- The invariant of the worklist loop ---

  /** The recorded exit of b is the transfer of a state that covers every edge into b. */
  ghost predicate Settled<S(!new), C(!new), E, Cond>(
    cfg: Graph<E, Cond>, an: Analysis<S, E, Cond>, m: Meaning<S, C, E, Cond>, exits: map<BlockId, S>, b: BlockId)
    requires b < |cfg.blocks|
  {
    exists u :: m.ok(u) && CoversEdges(cfg, an, m, exits, u, b)
      && (ExitOf(an, cfg.blocks[b], u).Some? ==> b in exits && exits[b] == ExitOf(an, cfg.blocks[b], u).value)
  }

  /** Nothing flows into b. */
  ghost predicate Untouched<S, E, Cond>(
    cfg: Graph<E, Cond>, an: Analysis<S, E, Cond>, exits: map<BlockId, S>, b: BlockId)
    requires b < |cfg.blocks|
  {
    && b != cfg.entry
    && forall p :: p in cfg.blocks[b].preds ==> Contribution(cfg, an, exits, p, b).None?
  }

  ghost predicate Invariant<S(!new), C(!new), E, Cond>(
    cfg: Graph<E, Cond>, an: Analysis<S, E, Cond>, m: Meaning<S, C, E, Cond>, eng: Engine<S>)
  {
    && QueueOk(eng.worklist, |cfg.blocks|)
    && ExitsOk(m, eng.exits)
    && (forall b :: b in eng.memory ==> m.ok(eng.memory[b]))
    && (forall b: BlockId :: b < |cfg.blocks| && b !in eng.worklist ==>
          Settled(cfg, an, m, eng.exits, b) || Untouched(cfg, an, eng.exits, b))
  }

  /** Exits change only at the visited block, and then every successor is queued. */
  lemma VisitFrame<S, E, Cond>(cfg: Graph<E, Cond>, an: Analysis<S, E, Cond>, eng: Engine<S>, d: BlockId)
    requires eng.worklist != [] && QueueOk(eng.worklist, |cfg.blocks|)
    requires d < |cfg.blocks|
    ensures var next := Visit(cfg, an, eng);
            var b := eng.worklist[0];
            && (d in eng.worklist && d != b ==> d in next.worklist)
            && (d in eng.exits && d != b ==> d in next.exits && next.exits[d] == eng.exits[d])
            && (d !in eng.exits && d != b ==> d !in next.exits)
            && (next.exits != eng.exits ==> forall e: BlockId :: Some(e) in cfg.blocks[b].succs ==> e in next.worklist)
  {
    var b := eng.worklist[0];
    VisitShape(cfg, an, eng);
    hide Visit, Enqueued, QueueOk;
    FrontLeaves(eng.worklist, |cfg.blocks|);
    SuccessorsInGraph(cfg, b);
    EnqueuedExact(eng.worklist[1..], cfg.blocks[b].succs, |cfg.blocks|);
  }

  /** A visit records the exit of its block and queues its successors, or does neither. */
  lemma VisitShape<S, E, Cond>(cfg: Graph<E, Cond>, an: Analysis<S, E, Cond>, eng: Engine<S>)
    requires eng.worklist != [] && QueueOk(eng.worklist, |cfg.blocks|)
    ensures var b, rest, next := eng.worklist[0], eng.worklist[1..], Visit(cfg, an, eng);
            || (next.worklist == rest && next.exits == eng.exits)
            || (next.worklist == Enqueued(rest, cfg.blocks[b].succs) && b in next.exits && next.exits == eng.exits[b := next.exits[b]])
  {
    hide ComputeEntry, ExitOf, StartState, Widens, Enqueued, QueueOk;
  }

  /** A block left out of the queue sees the same contributions after the visit as before. */
  lemma ContributionsUnchanged<S, E, Cond>(cfg: Graph<E, Cond>, an: Analysis<S, E, Cond>, eng: Engine<S>, d: BlockId, p: Option<BlockId>)
    requires eng.worklist != [] && QueueOk(eng.worklist, |cfg.blocks|)
    requires d < |cfg.blocks| && d !in Visit(cfg, an, eng).worklist && p in cfg.blocks[d].preds
    ensures Contribution(cfg, an, Visit(cfg, an, eng).exits, p, d) == Contribution(cfg, an, eng.exits, p, d)
  {
    VisitFrame(cfg, an, eng, d);
    if p.Some? {
      VisitFrame(cfg, an, eng, p.value);
      assert Some(d) in cfg.blocks[p.value].succs;
    }
  }

  lemma CoverageUnchanged<S(!new), C(!new), E, Cond>(
    cfg: Graph<E, Cond>, an: Analysis<S, E, Cond>, m: Meaning<S, C, E, Cond>, eng: Engine<S>, u: S, d: BlockId)
    requires eng.worklist != [] && QueueOk(eng.worklist, |cfg.blocks|)
    requires d < |cfg.blocks| && d !in Visit(cfg, an, eng).worklist
    requires CoversEdges(cfg, an, m, eng.exits, u, d)
    ensures CoversEdges(cfg, an, m, Visit(cfg, an, eng).exits, u, d)
  {
    var exits := Visit(cfg, an, eng).exits;
    forall p | p in cfg.blocks[d].preds
      ensures var s := Contribution(cfg, an, exits, p, d); s.Some? ==> Below(m, s.value, u)
    {
      ContributionsUnchanged(cfg, an, eng, d, p);
    }
  }

  lemma OthersStaySettled<S(!new), C(!new), E, Cond>(
    cfg: Graph<E, Cond>, an: Analysis<S, E, Cond>, m: Meaning<S, C, E, Cond>, eng: Engine<S>, d: BlockId)
    requires Invariant(cfg, an, m, eng) && eng.worklist != []
    requires d < |cfg.blocks| && d != eng.worklist[0] && d !in Visit(cfg, an, eng).worklist
    ensures var exits := Visit(cfg, an, eng).exits;
            Settled(cfg, an, m, exits, d) || Untouched(cfg, an, exits, d)
  {
    var exits := Visit(cfg, an, eng).exits;
    VisitFrame(cfg, an, eng, d);
    if Settled(cfg, an, m, eng.exits, d) {
      var u :| m.ok(u) && CoversEdges(cfg, an, m, eng.exits, u, d)
        && (ExitOf(an, cfg.blocks[d], u).Some? ==> d in eng.exits && eng.exits[d] == ExitOf(an, cfg.blocks[d], u).value);
      CoverageUnchanged(cfg, an, m, eng, u, d);
    } else {
      forall p | p in cfg.blocks[d].preds
        ensures Contribution(cfg, an, exits, p, d).None?
      {
        ContributionsUnchanged(cfg, an, eng, d, p);
      }
    }
  }

  /** The state the transfer starts from is at least the entry state, widened or not. */
  lemma StartStateCovers<S(!new), C(!new), E(!new), Cond(!new)>(
    cfg: Graph<E, Cond>, an: Analysis<S, E, Cond>, m: Meaning<S, C, E, Cond>, eng: Engine<S>, b: BlockId)
    requires LocallySound(an, m) && b < |cfg.blocks| && ExitsOk(m, eng.exits)
    requires forall d :: d in eng.memory ==> m.ok(eng.memory[d])
    ensures var start := StartState(an, eng, b, ComputeEntry(cfg, an, eng.exits, b).state);
            m.ok(start) && CoversEdges(cfg, an, m, eng.exits, start, b)
  {
    var entry := ComputeEntry(cfg, an, eng.exits, b).state;
    ComputeEntryCovers(cfg, an, m, eng.exits, b);
    var start := StartState(an, eng, b, entry);
    if Widens(an, eng.visits, b) {
      var joined := if b in eng.memory then an.merge(eng.memory[b], entry) else entry;
      assert m.ok(joined) && Below(m, entry, joined);
      assert Below(m, joined, start);
    }
    assert m.ok(start) && Below(m, entry, start);
    forall p | p in cfg.blocks[b].preds
      ensures var s := Contribution(cfg, an, eng.exits, p, b); s.Some? ==> Below(m, s.value, start)
    {
    }
  }

  lemma VisitedSettles<S(!new), C(!new), E(!new), Cond(!new)>(
    cfg: Graph<E, Cond>, an: Analysis<S, E, Cond>, m: Meaning<S, C, E, Cond>, eng: Engine<S>)
    requires LocallySound(an, m) && Invariant(cfg, an, m, eng) && eng.worklist != []
    requires eng.worklist[0] !in Visit(cfg, an, eng).worklist
    ensures var exits := Visit(cfg, an, eng).exits;
            Settled(cfg, an, m, exits, eng.worklist[0]) || Untouched(cfg, an, exits, eng.worklist[0])
  {
    var b := eng.worklist[0];
    var entry := ComputeEntry(cfg, an, eng.exits, b);
    if !entry.hasPreds && b != cfg.entry {
      ComputeEntryCovers(cfg, an, m, eng.exits, b);
    } else {
      var start := StartState(an, eng, b, entry.state);
      StartStateCovers(cfg, an, m, eng, b);
      CoverageUnchanged(cfg, an, m, eng, start, b);
    }
  }

  lemma VisitKeepsOk<S(!new), C(!new), E(!new), Cond(!new)>(
    cfg: Graph<E, Cond>, an: Analysis<S, E, Cond>, m: Meaning<S, C, E, Cond>, eng: Engine<S>)
    requires LocallySound(an, m) && Invariant(cfg, an, m, eng) && eng.worklist != []
    ensures var next := Visit(cfg, an, eng);
            ExitsOk(m, next.exits) && forall b :: b in next.memory ==> m.ok(next.memory[b])
  {
    var b := eng.worklist[0];
    StartStateCovers(cfg, an, m, eng, b);
    TransferredOk(an, m, cfg.blocks[b].elems, StartState(an, eng, b, ComputeEntry(cfg, an, eng.exits, b).state));
  }

  /** Every iteration keeps the invariant. */
  lemma VisitKeepsInvariant<S(!new), C(!new), E(!new), Cond(!new)>(
    cfg: Graph<E, Cond>, an: Analysis<S, E, Cond>, m: Meaning<S, C, E, Cond>, eng: Engine<S>)
    requires LocallySound(an, m) && Invariant(cfg, an, m, eng) && eng.worklist != []
    ensures Invariant(cfg, an, m, Visit(cfg, an, eng))
  {
    var next := Visit(cfg, an, eng);
    VisitKeepsQueue(cfg, an, eng);
    VisitKeepsOk(cfg, an, m, eng);
    forall d: BlockId | d < |cfg.blocks| && d !in next.worklist
      ensures Settled(cfg, an, m, next.exits, d) || Untouched(cfg, an, next.exits, d)
    {
      if d == eng.worklist[0] {
        VisitedSettles(cfg, an, m, eng);
      } else {
        OthersStaySettled(cfg, an, m, eng, d);
      }
    }
  }

  lemma IterateKeepsInvariant<S(!new), C(!new), E(!new), Cond(!new)>(
    cfg: Graph<E, Cond>, an: Analysis<S, E, Cond>, m: Meaning<S, C, E, Cond>, eng: Engine<S>, limit: nat)
    requires QueueOk(eng.worklist, |cfg.blocks|)
    requires LocallySound(an, m) && Invariant(cfg, an, m, eng)
    ensures Invariant(cfg, an, m, Iterate(cfg, an, eng, limit))
  {
    var p := (e: Engine<S>) => Invariant(cfg, an, m, e);
    forall e: Engine<S> | e.worklist != [] && QueueOk(e.worklist, |cfg.blocks|) && p(e)
      ensures p(Visit(cfg, an, e))
    {
      VisitKeepsInvariant(cfg, an, m, e);
    }
    IterateInduction(cfg, an, eng, limit, p);
  }

  lemma StartInvariant<S(!new), C(!new), E, Cond>(cfg: Graph<E, Cond>, an: Analysis<S, E, Cond>, m: Meaning<S, C, E, Cond>)
    ensures Invariant(cfg, an, m, Start(cfg))
  {
  }

  // --- Converged results describe every run ---

  /** What the edge from p contributes to b describes c. */
  ghost predicate Contributes<S, C, E, Cond>(
    cfg: Graph<E, Cond>, an: Analysis<S, E, Cond>, m: Meaning<S, C, E, Cond>, exits: map<BlockId, S>,
    p: BlockId, b: BlockId, c: C)
    requires p < |cfg.blocks|
  {
    var s := Contribution(cfg, an, exits, Some(p), b);
    s.Some? && m.gamma(s.value, c)
  }

  /** What an edge the run follows contributes describes the state it is followed in. */
  lemma FollowedEdgeContributes<S(!new), C(!new), E(!new), Cond(!new)>(
    cfg: Graph<E, Cond>, an: Analysis<S, E, Cond>, m: Meaning<S, C, E, Cond>, exits: map<BlockId, S>,
    a: BlockId, k: nat, c: C, b: BlockId)
    requires LocallySound(an, m) && ExitsOk(m, exits)
    requires a < |cfg.blocks| && Follows(cfg, m, a, k, c, b) && a in exits && m.gamma(exits[a], c)
    ensures Contributes(cfg, an, m, exits, a, b, c)
  {
    var from := cfg.blocks[a];
    if |from.succs| == 2 && from.cond.Some? {
      var (leaf, flip) := an.edgeCondition(from.cond.value);
      var taken := (k == 0) != flip;
      assert m.takes(from.cond.value, k == 0, c);
      RefineLaws(an, m, leaf, taken, exits[a]);
      assert m.takes(leaf, taken, c);
    }
  }

  /** Some state behind the recorded exit of b describes c at the start of b. */
  ghost predicate Accounted<S(!new), C(!new), E, Cond>(
    cfg: Graph<E, Cond>, an: Analysis<S, E, Cond>, m: Meaning<S, C, E, Cond>, exits: map<BlockId, S>, b: BlockId, c: C)
    requires b < |cfg.blocks|
  {
    exists u :: m.ok(u) && CoversEdges(cfg, an, m, exits, u, b) && m.gamma(u, c)
      && (ExitOf(an, cfg.blocks[b], u).Some? ==> b in exits && exits[b] == ExitOf(an, cfg.blocks[b], u).value)
  }

  ghost predicate Drained<S(!new), C(!new), E(!new), Cond(!new)>(
    cfg: Graph<E, Cond>, an: Analysis<S, E, Cond>, m: Meaning<S, C, E, Cond>, eng: Engine<S>)
  {
    LocallySound(an, m) && Invariant(cfg, an, m, eng) && eng.worklist == []
  }

  lemma AccountedExit<S(!new), C(!new), E(!new), Cond(!new)>(
    cfg: Graph<E, Cond>, an: Analysis<S, E, Cond>, m: Meaning<S, C, E, Cond>, exits: map<BlockId, S>,
    a: BlockId, c: C, c': C)
    requires LocallySound(an, m) && a < |cfg.blocks| && Accounted(cfg, an, m, exits, a, c)
    requires !cfg.blocks[a].noReturn && Executes(m, cfg.blocks[a].elems, c, c')
    ensures a in exits && m.gamma(exits[a], c')
  {
    var u :| m.ok(u) && CoversEdges(cfg, an, m, exits, u, a) && m.gamma(u, c)
      && (ExitOf(an, cfg.blocks[a], u).Some? ==> a in exits && exits[a] == ExitOf(an, cfg.blocks[a], u).value);
    TransferredSound(an, m, cfg.blocks[a].elems, u, c, c');
  }

  lemma FollowedEdgeExists<S, C, E, Cond>(
    cfg: Graph<E, Cond>, m: Meaning<S, C, E, Cond>, a: BlockId, k: nat, c: C, b: BlockId)
    requires a < |cfg.blocks| && Follows(cfg, m, a, k, c, b)
    ensures b < |cfg.blocks| && Some(a) in cfg.blocks[b].preds
  {
    assert Some(b) in cfg.blocks[a].succs;
  }

  /** Leaving an accounted block, the run's state is described by what the edge it takes contributes. */
  lemma MoveContributes<S(!new), C(!new), E(!new), Cond(!new)>(
    cfg: Graph<E, Cond>, an: Analysis<S, E, Cond>, m: Meaning<S, C, E, Cond>, exits: map<BlockId, S>,
    a: BlockId, c: C, b: BlockId, c': C)
    requires LocallySound(an, m) && ExitsOk(m, exits)
    requires Moves(cfg, m, a, c, b, c') && Accounted(cfg, an, m, exits, a, c)
    ensures b < |cfg.blocks| && Some(a) in cfg.blocks[b].preds
    ensures a < |cfg.blocks| && Contributes(cfg, an, m, exits, a, b, c')
  {
    AccountedExit(cfg, an, m, exits, a, c, c');
    var k: nat :| Follows(cfg, m, a, k, c', b);
    FollowedEdgeExists(cfg, m, a, k, c', b);
    FollowedEdgeContributes(cfg, an, m, exits, a, k, c', b);
  }

  lemma SettledAccounts<S(!new), C(!new), E, Cond>(
    cfg: Graph<E, Cond>, an: Analysis<S, E, Cond>, m: Meaning<S, C, E, Cond>, exits: map<BlockId, S>,
    p: BlockId, b: BlockId, c: C)
    requires b < |cfg.blocks| && p < |cfg.blocks| && Some(p) in cfg.blocks[b].preds
    requires Settled(cfg, an, m, exits, b) || Untouched(cfg, an, exits, b)
    requires Contributes(cfg, an, m, exits, p, b, c)
    ensures Accounted(cfg, an, m, exits, b, c)
  {
    var s := Contribution(cfg, an, exits, Some(p), b).value;
    var u :| m.ok(u) && CoversEdges(cfg, an, m, exits, u, b)
      && (ExitOf(an, cfg.blocks[b], u).Some? ==> b in exits && exits[b] == ExitOf(an, cfg.blocks[b], u).value);
    assert Below(m, s, u);
  }

  lemma {:induction false} RunAccounted<S(!new), C(!new), E(!new), Cond(!new)>(
    cfg: Graph<E, Cond>, an: Analysis<S, E, Cond>, m: Meaning<S, C, E, Cond>, eng: Engine<S>, run: seq<(BlockId, C)>, n: nat)
    requires Drained(cfg, an, m, eng) && IsRun(cfg, m, an.initial, run) && n < |run|
    ensures run[n].0 < |cfg.blocks| && Accounted(cfg, an, m, eng.exits, run[n].0, run[n].1)
  {
    hide LocallySound, Accounted, Moves, ExitsOk, Settled, Untouched, Invariant;
    DrainedParts(cfg, an, m, eng);
    hide Drained;
    if n == 0 {
      EntryAccounted(cfg, an, m, eng.exits, run[0].1);
    } else {
      RunAccounted(cfg, an, m, eng, run, n - 1);
      MoveAccounted(cfg, an, m, eng, run[n - 1].0, run[n - 1].1, run[n].0, run[n].1);
    }
  }

  lemma DrainedParts<S(!new), C(!new), E(!new), Cond(!new)>(
    cfg: Graph<E, Cond>, an: Analysis<S, E, Cond>, m: Meaning<S, C, E, Cond>, eng: Engine<S>)
    requires Drained(cfg, an, m, eng)
    ensures LocallySound(an, m) && ExitsOk(m, eng.exits) && Settled(cfg, an, m, eng.exits, cfg.entry)
    ensures forall b: BlockId :: b < |cfg.blocks| ==> Settled(cfg, an, m, eng.exits, b) || Untouched(cfg, an, eng.exits, b)
  {
    hide LocallySound, ExitsOk, Settled;
  }

  lemma MoveAccounted<S(!new), C(!new), E(!new), Cond(!new)>(
    cfg: Graph<E, Cond>, an: Analysis<S, E, Cond>, m: Meaning<S, C, E, Cond>, eng: Engine<S>,
    a: BlockId, c: C, b: BlockId, c': C)
    requires Drained(cfg, an, m, eng)
    requires Moves(cfg, m, a, c, b, c') && Accounted(cfg, an, m, eng.exits, a, c)
    ensures b < |cfg.blocks| && Accounted(cfg, an, m, eng.exits, b, c')
  {
    DrainedParts(cfg, an, m, eng);
    hide LocallySound, Accounted, Moves, ExitsOk, Settled, Untouched, Drained, Contributes;
    MoveContributes(cfg, an, m, eng.exits, a, c, b, c');
    SettledAccounts(cfg, an, m, eng.exits, a, b, c');
  }

  lemma EntryAccounted<S(!new), C(!new), E, Cond>(
    cfg: Graph<E, Cond>, an: Analysis<S, E, Cond>, m: Meaning<S, C, E, Cond>, exits: map<BlockId, S>, c: C)
    requires m.gamma(an.initial, c)
    requires Settled(cfg, an, m, exits, cfg.entry)
    ensures Accounted(cfg, an, m, exits, cfg.entry, c)
  {
    var b := cfg.entry;
    var u :| m.ok(u) && CoversEdges(cfg, an, m, exits, u, b)
      && (ExitOf(an, cfg.blocks[b], u).Some? ==> b in exits && exits[b] == ExitOf(an, cfg.blocks[b], u).value);
    assert Below(m, an.initial, u);
  }

  /** The entry state recomputed from drained exits describes every run that enters the block. */
  lemma RunDescribed<S(!new), C(!new), E(!new), Cond(!new)>(
    cfg: Graph<E, Cond>, an: Analysis<S, E, Cond>, m: Meaning<S, C, E, Cond>, eng: Engine<S>, run: seq<(BlockId, C)>, n: nat)
    requires Drained(cfg, an, m, eng) && IsRun(cfg, m, an.initial, run) && n < |run|
    ensures run[n].0 < |cfg.blocks|
    ensures var entry := ComputeEntry(cfg, an, eng.exits, run[n].0);
            m.ok(entry.state) && m.gamma(entry.state, run[n].1) && (entry.hasPreds || run[n].0 == cfg.entry)
  {
    hide LocallySound, Accounted, Moves, ExitsOk, Drained, ComputeEntry;
    RunAccounted(cfg, an, m, eng, run, n);
    if n == 0 {
      EntryDescribed(cfg, an, m, eng, run[0].1);
    } else {
      RunAccounted(cfg, an, m, eng, run, n - 1);
      MoveDescribed(cfg, an, m, eng, run[n - 1].0, run[n - 1].1, run[n].0, run[n].1);
    }
  }

  lemma EntryDescribed<S(!new), C(!new), E(!new), Cond(!new)>(
    cfg: Graph<E, Cond>, an: Analysis<S, E, Cond>, m: Meaning<S, C, E, Cond>, eng: Engine<S>, c: C)
    requires Drained(cfg, an, m, eng) && m.gamma(an.initial, c)
    ensures var entry := ComputeEntry(cfg, an, eng.exits, cfg.entry); m.ok(entry.state) && m.gamma(entry.state, c)
  {
    DrainedParts(cfg, an, m, eng);
    hide LocallySound, Drained, ComputeEntry, ExitsOk;
    ComputeEntryCovers(cfg, an, m, eng.exits, cfg.entry);
    assert Below(m, an.initial, ComputeEntry(cfg, an, eng.exits, cfg.entry).state);
  }

  lemma MoveDescribed<S(!new), C(!new), E(!new), Cond(!new)>(
    cfg: Graph<E, Cond>, an: Analysis<S, E, Cond>, m: Meaning<S, C, E, Cond>, eng: Engine<S>,
    a: BlockId, c: C, b: BlockId, c': C)
    requires Drained(cfg, an, m, eng)
    requires Moves(cfg, m, a, c, b, c') && Accounted(cfg, an, m, eng.exits, a, c)
    ensures b < |cfg.blocks|
    ensures var entry := ComputeEntry(cfg, an, eng.exits, b); m.ok(entry.state) && m.gamma(entry.state, c') && entry.hasPreds
  {
    DrainedParts(cfg, an, m, eng);
    hide LocallySound, Accounted, Moves, Drained, ExitsOk, ComputeEntry, Contribution;
    MoveContributes(cfg, an, m, eng.exits, a, c, b, c');
    ComputeEntryCovers(cfg, an, m, eng.exits, b);
    var s := Contribution(cfg, an, eng.exits, Some(a), b).value;
    assert Below(m, s, ComputeEntry(cfg, an, eng.exits, b).state);
  }

  // --- The states the reporting pass records ---

  lemma {:induction false} ReportElemsFrame<S, E, Cond>(
    an: Analysis<S, E, Cond>, b: BlockId, elems: seq<E>, i: nat, s: S, log: map<(BlockId, nat), S>, key: (BlockId, nat))
    requires i <= |elems| && (key.0 != b || key.1 < i)
    ensures var r := ReportElems(an, b, elems, i, s, log);
            (key in r <==> key in log) && (key in log ==> r[key] == log[key])
    decreases |elems| - i
  {
    if i < |elems| && !an.fatal(elems[i]) {
      var before := an.guard(elems[i], s);
      ReportElemsFrame(an, b, elems, i + 1, an.transfer(elems[i], before), log[(b, i) := before], key);
    }
  }

  /** The recorded state is what the guard makes of a state that describes c. */
  ghost predicate RecordsFor<S(!new), C, E, Cond>(
    an: Analysis<S, E, Cond>, m: Meaning<S, C, E, Cond>, elem: E, recorded: S, c: C)
  {
    exists s :: m.ok(s) && m.gamma(s, c) && recorded == an.guard(elem, s)
  }

  lemma {:induction false} ReportElemsSound<S(!new), C(!new), E(!new), Cond(!new)>(
    an: Analysis<S, E, Cond>, m: Meaning<S, C, E, Cond>, b: BlockId, elems: seq<E>, i: nat, s: S,
    log: map<(BlockId, nat), S>, j: nat, c: C, at: C)
    requires LocallySound(an, m) && m.ok(s) && m.gamma(s, c)
    requires i <= j < |elems| && Executes(m, elems[i..j], c, at) && !an.fatal(elems[j])
    ensures var r := ReportElems(an, b, elems, i, s, log); (b, j) in r && RecordsFor(an, m, elems[j], r[(b, j)], at)
    decreases |elems| - i
  {
    var before := an.guard(elems[i], s);
    var next := an.transfer(elems[i], before);
    if i == j {
      ReportElemsFrame(an, b, elems, i + 1, next, log[(b, i) := before], (b, j));
    } else {
      assert elems[i..j][0] == elems[i] && elems[i..j][1..] == elems[i + 1..j];
      var mid :| m.step(elems[i], c, mid) && Executes(m, elems[i + 1..j], mid, at);
      ReportElemsSound(an, m, b, elems, i + 1, next, log[(b, i) := before], j, mid, at);
    }
  }

  lemma {:induction false} ReportFrame<S, E, Cond>(
    cfg: Graph<E, Cond>, an: Analysis<S, E, Cond>, exits: map<BlockId, S>, b: BlockId, i: nat, n: nat)
    requires b < n <= |cfg.blocks|
    ensures var r, own := Report(cfg, an, exits, n), ReportBlock(cfg, an, exits, b, Report(cfg, an, exits, b));
            ((b, i) in r <==> (b, i) in own) && ((b, i) in own ==> r[(b, i)] == own[(b, i)])
  {
    if n > b + 1 {
      ReportFrame(cfg, an, exits, b, i, n - 1);
      var entry := ComputeEntry(cfg, an, exits, n - 1);
      ReportElemsFrame(an, n - 1, cfg.blocks[n - 1].elems, 0, entry.state, Report(cfg, an, exits, n - 1), (b, i));
    }
  }

  /**
   The main theorem of the engine. When the worklist drains, the state recorded before an
   element describes the concrete state of every run that reaches that element, through
   loops, widening, pruned edges and the selection rewind.
   */
  lemma ReportDescribesRuns<S(!new), C(!new), E(!new), Cond(!new)>(
    cfg: Graph<E, Cond>, an: Analysis<S, E, Cond>, m: Meaning<S, C, E, Cond>,
    run: seq<(BlockId, C)>, n: nat, i: nat, at: C)
    requires LocallySound(an, m) && Solve(cfg, an).converged
    requires IsRun(cfg, m, an.initial, run) && n < |run|
    requires run[n].0 < |cfg.blocks| && i < |cfg.blocks[run[n].0].elems|
    requires Executes(m, cfg.blocks[run[n].0].elems[..i], run[n].1, at)
    requires !an.fatal(cfg.blocks[run[n].0].elems[i])
    ensures var report, key := Solve(cfg, an).report, (run[n].0, i);
            key in report && RecordsFor(an, m, cfg.blocks[run[n].0].elems[i], report[key], at)
  {
    var eng := Iterate(cfg, an, Start(cfg), MaxIterations(cfg, an));
    var (b, c) := run[n];
    StartInvariant(cfg, an, m);
    IterateKeepsInvariant(cfg, an, m, Start(cfg), MaxIterations(cfg, an));
    RunDescribed(cfg, an, m, eng, run, n);
    var elems := cfg.blocks[b].elems;
    assert elems[0..i] == elems[..i];
    ReportElemsSound(an, m, b, elems, 0, ComputeEntry(cfg, an, eng.exits, b).state,
                     Report(cfg, an, eng.exits, b), i, c, at);
    ReportFrame(cfg, an, eng.exits, b, i, |cfg.blocks|);
  }

  /** A run that goes on past the element is described by the recorded state itself. */
  lemma RecordedStateDescribes<S(!new), C(!new), E(!new), Cond(!new)>(
    an: Analysis<S, E, Cond>, m: Meaning<S, C, E, Cond>, elem: E, recorded: S, at: C, after: C)
    requires LocallySound(an, m) && RecordsFor(an, m, elem, recorded, at) && m.step(elem, at, after)
    ensures m.ok(recorded) && m.gamma(recorded, at) && m.gamma(an.transfer(elem, recorded), after)
  {
    var s :| m.ok(s) && m.gamma(s, at) && recorded == an.guard(elem, s);
    assert m.gamma(an.guard(elem, s), at);
  }

  /** Runs that enter a block at all are described by its recomputed entry state. */
  lemma EntryDescribesRuns<S(!new), C(!new), E(!new), Cond(!new)>(
    cfg: Graph<E, Cond>, an: Analysis<S, E, Cond>, m: Meaning<S, C, E, Cond>, run: seq<(BlockId, C)>, n: nat)
    requires LocallySound(an, m) && Solve(cfg, an).converged
    requires IsRun(cfg, m, an.initial, run) && n < |run|
    ensures run[n].0 < |cfg.blocks|
    ensures var entry := ComputeEntry(cfg, an, Solve(cfg, an).exits, run[n].0);
            m.gamma(entry.state, run[n].1) && (entry.hasPreds || run[n].0 == cfg.entry)
  {
    StartInvariant(cfg, an, m);
    IterateKeepsInvariant(cfg, an, m, Start(cfg), MaxIterations(cfg, an));
    RunDescribed(cfg, an, m, Iterate(cfg, an, Start(cfg), MaxIterations(cfg, an)), run, n);
  }
}
