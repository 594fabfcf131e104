/**
 A loop of n blocks that counts up and calls g, run by the engine. Widening needs nine rounds
 and the cap grows by eight visits a block, so from 22 blocks on the analysis is cut off, and
 from 24 on with the range of the eighth round recorded at the call.
 */
module CountingLoop {
  import opened Int64
  import opened Ast
  import opened IntervalEval
  import opened ParamIntervals
  import I = Intervals
  import D = Dataflow
  import DS = DataflowSoundness
  import IA = IntervalAnalysis

  type Analysis = D.Analysis<IntervalMap, Stmt, Expr>
  type Block = D.Block<Stmt, Expr>
  type Engine = D.Engine<IntervalMap>

  /** The number of blocks of the loop. */
  type Size = n: nat | n >= 2 witness 2

  const IntTy: IntType := IntType(true, 32)
  const X: Decl := Decl(0, IntTy, false)

  const Reset: Stmt := Assign(X, IntLit(0, IntTy))
  const CallG: Stmt := Call(1, [VarRef(X)], {}, false)
  const Step1: Stmt := Assign(X, Arith(Add, VarRef(X), IntLit(1, IntTy), IntTy))

  // --- The graph ---

  const HEAD: nat := 2

  function Last(n: Size): nat {
    n + 1
  }

  /** `x = 0; l1: ...; l2: ...; ...; g(x); x = x + 1; goto l1;` with its empty entry and exit blocks. */
  function BlockAt(n: Size, j: nat): Block {
    if j == 0 then D.Block([], None, false, false, [], [Some(1)])
    else if j == 1 then D.Block([Reset], None, false, false, [Some(0)], [Some(HEAD)])
    else if j == HEAD then D.Block([], None, false, false, [Some(1), Some(Last(n))], [Some(HEAD + 1)])
    else if j < Last(n) then D.Block([], None, false, false, [Some(j - 1)], [Some(j + 1)])
    else if j == Last(n) then D.Block([CallG, Step1], None, false, false, [Some(j - 1)], [Some(HEAD)])
    else D.Block([], None, false, false, [], [])
  }

  function Blocks(n: Size): (r: seq<Block>)
    ensures |r| == n + 3 && forall j :: 0 <= j < |r| ==> r[j] == BlockAt(n, j)
  {
    seq(n + 3, j requires 0 <= j < n + 3 => BlockAt(n, j))
  }

  predicate Leads(n: Size, a: nat, b: nat) {
    (a < Last(n) && b == a + 1) || (a == Last(n) && b == HEAD)
  }

  lemma EdgesAre(n: Size, a: nat, b: nat)
    ensures Some(b) in BlockAt(n, a).succs <==> Leads(n, a, b)
    ensures Some(a) in BlockAt(n, b).preds <==> Leads(n, a, b)
  {
  }

  lemma LoopWellFormed(n: Size)
    ensures D.Cfg(Blocks(n), 0).WellFormed()
  {
    hide BlockAt, Blocks;
    FirstBlocks(n);
    forall a: nat, b: nat | a < n + 3 && Some(b) in BlockAt(n, a).succs
      ensures b < n + 3 && Some(a) in BlockAt(n, b).preds
    {
      EdgesAre(n, a, b);
    }
    forall a: nat, b: nat | b < n + 3 && Some(a) in BlockAt(n, b).preds
      ensures a < n + 3 && Some(b) in BlockAt(n, a).succs
    {
      EdgesAre(n, a, b);
    }
  }

  lemma FirstBlocks(n: Size)
    ensures BlockAt(n, 0) == D.Block([], None, false, false, [], [Some(1)])
    ensures BlockAt(n, 1) == D.Block([Reset], None, false, false, [Some(0)], [Some(HEAD)])
  {
  }

  predicate InRing(n: Size, j: nat) {
    HEAD <= j <= Last(n)
  }

  function NextBlock(n: Size, j: nat): nat {
    if j == Last(n) then HEAD else j + 1
  }

  lemma RingBlock(n: Size, j: nat)
    requires InRing(n, j)
    ensures var b := BlockAt(n, j);
            && b.preds == (if j == HEAD then [Some(1), Some(Last(n))] else [Some(j - 1)])
            && b.succs == [Some(NextBlock(n, j))]
            && b.elems == (if j == Last(n) then [CallG, Step1] else []) && !b.noReturn
  {
  }

  function Loop(n: Size): (r: IA.Flow)
    ensures |r.blocks| == n + 3 && r.entry == 0 && forall j :: 0 <= j < n + 3 ==> r.blocks[j] == BlockAt(n, j)
  {
    LoopWellFormed(n);
    D.Cfg(Blocks(n), 0)
  }

  function Never(): Stmt -> bool {
    s => false
  }

  /** The analysis of the caller, which has no parameters to seed. */
  function An(): Analysis {
    IA.Hooks({X}, map[], map[], Never())
  }

  // --- Entry states ---

  function Between(lo: int64, hi: int64): IntervalMap {
    map[X := I.Range(lo, hi)]
  }

  const Anything: IntervalMap := map[X := I.Top]

  lemma OnePredecessor<S, E, Cond>(cfg: D.Graph<E, Cond>, an: D.Analysis<S, E, Cond>, exits: map<D.BlockId, S>, b: nat, p: nat)
    requires b < |cfg.blocks| && cfg.blocks[b].preds == [Some(p)] && p < |cfg.blocks| && |cfg.blocks[p].succs| == 1 && p in exits
    ensures D.ComputeEntry(cfg, an, exits, b) == D.Entry(exits[p], true)
  {
    assert Some(p) in cfg.blocks[b].preds;
    assert D.MergedPreds(cfg, an, exits, b, 0).None?;
    assert D.MergedPreds(cfg, an, exits, b, 1) == Some(exits[p]);
  }

  lemma TwoPredecessors<S, E, Cond>(
    cfg: D.Graph<E, Cond>, an: D.Analysis<S, E, Cond>, exits: map<D.BlockId, S>, b: nat, p: nat, q: nat)
    requires b < |cfg.blocks| && cfg.blocks[b].preds == [Some(p), Some(q)] && p < |cfg.blocks| && q < |cfg.blocks|
    requires |cfg.blocks[p].succs| == 1 && |cfg.blocks[q].succs| == 1 && p in exits
    requires |cfg.blocks[p].preds| == 1 && |cfg.blocks[q].preds| == 1 && cfg.blocks[p].preds[0] != cfg.blocks[q].preds[0]
    ensures D.ComputeEntry(cfg, an, exits, b) == D.Entry(if q in exits then an.merge(exits[p], exits[q]) else exits[p], true)
  {
    assert Some(p) in cfg.blocks[b].preds && Some(q) in cfg.blocks[b].preds;
    assert D.SelectionHead(cfg, b).None?;
    assert D.MergedPreds(cfg, an, exits, b, 0).None?;
    assert D.MergedPreds(cfg, an, exits, b, 1) == Some(exits[p]);
    assert D.MergedPreds(cfg, an, exits, b, 2) == D.MergeInto(an, Some(exits[p]), D.Contribution(cfg, an, exits, Some(q), b));
  }

  /** The state a ring block is entered in: its predecessor's exit, at the head joined with the reset. */
  function EntryState(n: Size, exits: map<D.BlockId, IntervalMap>, j: nat): IntervalMap
    requires InRing(n, j) && j - 1 in exits
  {
    if j == HEAD && Last(n) in exits then Merged(exits[1], exits[Last(n)]) else exits[j - 1]
  }

  lemma AnMerge(a: IntervalMap, b: IntervalMap)
    ensures An().merge(a, b) == Merged(a, b)
  {
  }

  lemma HeadEntry(n: Size, exits: map<D.BlockId, IntervalMap>)
    requires InRing(n, HEAD) && 1 in exits
    ensures D.ComputeEntry(Loop(n), An(), exits, HEAD) == D.Entry(EntryState(n, exits, HEAD), true)
  {
    hide Merged, An, Loop, BlockAt, D.ComputeEntry;
    RingBlock(n, HEAD);
    RingBlock(n, Last(n));
    FirstBlocks(n);
    if Last(n) in exits {
      AnMerge(exits[1], exits[Last(n)]);
    }
    TwoPredecessors(Loop(n), An(), exits, HEAD, 1, Last(n));
  }

  lemma BodyEntry(n: Size, exits: map<D.BlockId, IntervalMap>, j: nat)
    requires InRing(n, j) && j > HEAD && j - 1 in exits
    ensures D.ComputeEntry(Loop(n), An(), exits, j) == D.Entry(EntryState(n, exits, j), true)
  {
    hide Merged, An, Loop, BlockAt, D.ComputeEntry;
    RingBlock(n, j);
    RingBlock(n, j - 1);
    OnePredecessor(Loop(n), An(), exits, j, j - 1);
  }

  lemma HeadIsFirst(n: Size, j: nat)
    requires InRing(n, j)
    ensures if j == HEAD then j - 1 == 1 else j > HEAD
  {
  }

  lemma RingEntry(n: Size, exits: map<D.BlockId, IntervalMap>, j: nat)
    requires InRing(n, j) && j - 1 in exits
    ensures D.ComputeEntry(Loop(n), An(), exits, j) == D.Entry(EntryState(n, exits, j), true)
  {
    hide *;
    HeadIsFirst(n, j);
    if j == HEAD {
      HeadEntry(n, exits);
    } else {
      BodyEntry(n, exits, j);
    }
  }

  // --- The iteration ---

  /** The first eight rounds climb; from the ninth on, blocks widen as they are visited. */
  const ROUNDS: nat := 8

  /** The exit of block j after round r. */
  function ExitIn(n: Size, j: nat, r: nat): IntervalMap
    requires r <= ROUNDS + 1
  {
    if r >= ROUNDS then Anything else if j == Last(n) then Between(1, r as int64 + 1) else Between(0, r as int64)
  }

  function EntryIn(j: nat, r: nat): IntervalMap
    requires r <= ROUNDS + 1
  {
    if r > ROUNDS || (r == ROUNDS && j > HEAD) then Anything else Between(0, r as int64)
  }

  function StartIn(j: nat, r: nat): IntervalMap
    requires r <= ROUNDS + 1
  {
    if r >= ROUNDS then Anything else EntryIn(j, r)
  }

  ghost predicate ExitsReached(n: Size, exits: map<D.BlockId, IntervalMap>, r: nat, j: nat)
    requires r <= ROUNDS + 1
  {
    && 1 in exits && exits[1] == Between(0, 0)
    && (forall b :: HEAD <= b < j ==> b in exits && exits[b] == ExitIn(n, b, r))
    && (r == 0 ==> forall b :: j <= b <= Last(n) ==> b !in exits)
    && (r > 0 ==> forall b :: j <= b <= Last(n) ==> b in exits && exits[b] == ExitIn(n, b, r - 1))
  }

  ghost predicate VisitsReached(n: Size, visits: map<D.BlockId, nat>, r: nat, j: nat) {
    && (forall b :: HEAD <= b < j ==> D.VisitCount(visits, b) == r + 1)
    && (forall b :: j <= b <= Last(n) ==> D.VisitCount(visits, b) == r)
  }

  ghost predicate MemoryReached(memory: map<D.BlockId, IntervalMap>) {
    forall b :: b in memory ==> memory[b] == Anything
  }

  /** Block j is about to be visited in round r, and nothing else is pending. */
  ghost predicate Reached(n: Size, eng: Engine, r: nat, j: nat) {
    && r <= ROUNDS + 1 && InRing(n, j) && (r > ROUNDS ==> j == HEAD)
    && eng.worklist == [j]
    && ExitsReached(n, eng.exits, r, j) && VisitsReached(n, eng.visits, r, j) && MemoryReached(eng.memory)
  }

  lemma MergedAtHead(n: Size, r: nat)
    requires 1 <= r <= ROUNDS + 1
    ensures Merged(Between(0, 0), ExitIn(n, Last(n), r - 1)) == EntryIn(HEAD, r)
  {
  }

  lemma EntryReached(n: Size, eng: Engine, r: nat, j: nat)
    requires Reached(n, eng, r, j)
    ensures j - 1 in eng.exits && EntryState(n, eng.exits, j) == EntryIn(j, r)
  {
    if j == HEAD && r > 0 {
      MergedAtHead(n, r);
    }
    hide Merged;
  }

  lemma ExitOfBody(n: Size, j: nat, s: IntervalMap)
    requires HEAD <= j < Last(n)
    ensures D.ExitOf(An(), BlockAt(n, j), s) == Some(s)
  {
  }

  lemma CallLeaves(s: IntervalMap)
    ensures Assigned(s, CallG, {X}, true) == s
  {
    assert {} * {X} == {};
  }

  lemma StepAdds(n: Size, r: nat)
    requires r <= ROUNDS
    ensures Assigned(StartIn(Last(n), r), Step1, {X}, true) == ExitIn(n, Last(n), r)
  {
    assert Pow2(2) == 4;
    Pow2Monotone(2, 31);
    assert SignExtended(1, 32) == 1;
    var iv := StartIn(Last(n), r);
    assert EvalInterval(IntLit(1, IntTy), iv, true) == I.Constant(1);
    assert EvalInterval(VarRef(X), iv, true) == iv[X];
    AddsOne(r);
    assert EvalInterval(Arith(Add, VarRef(X), IntLit(1, IntTy), IntTy), iv, true) == I.Add(iv[X], I.Constant(1));
  }

  lemma AddsOne(r: nat)
    requires r <= ROUNDS
    ensures I.Add(I.Range(0, r as int64), I.Constant(1)) == I.Range(1, r as int64 + 1)
    ensures I.Add(I.Top, I.Constant(1)) == I.Top
  {
  }

  lemma ExitOfLast(n: Size, r: nat)
    requires r <= ROUNDS
    ensures D.ExitOf(An(), BlockAt(n, Last(n)), StartIn(Last(n), r)) == Some(ExitIn(n, Last(n), r))
  {
    var s := StartIn(Last(n), r);
    var an := An();
    RingBlock(n, Last(n));
    CallLeaves(s);
    StepAdds(n, r);
    hide Assigned, StartIn, ExitIn, BlockAt;
    var exit := ExitIn(n, Last(n), r);
    assert an.transfer(CallG, an.guard(CallG, s)) == s;
    assert an.transfer(Step1, an.guard(Step1, s)) == exit;
    assert [CallG, Step1][1..] == [Step1] && [Step1][1..] == [];
    assert D.Transferred(an, [], exit) == Some(exit);
    assert D.Transferred(an, [Step1], s) == Some(exit);
    assert D.Transferred(an, [CallG, Step1], s) == Some(exit);
  }

  /** The exit of the visit. */
  lemma ExitReached(n: Size, r: nat, j: nat)
    requires r <= ROUNDS + 1 && InRing(n, j) && (r > ROUNDS ==> j == HEAD)
    ensures D.ExitOf(An(), BlockAt(n, j), StartIn(j, r)) == Some(ExitIn(n, j, r))
  {
    if j < Last(n) {
      ExitOfBody(n, j, StartIn(j, r));
    } else {
      ExitOfLast(n, r);
    }
    hide An, BlockAt, D.ExitOf, Between;
  }

  lemma StartReached(n: Size, eng: Engine, r: nat, j: nat)
    requires Reached(n, eng, r, j)
    ensures D.Widens(An(), eng.visits, j) <==> r >= ROUNDS
    ensures D.StartState(An(), eng, j, EntryIn(j, r)) == StartIn(j, r)
  {
    assert D.VisitCount(eng.visits, j) == r;
    if r >= ROUNDS {
      WidensToTop(j, r);
    }
    hide Merged, Widened, EntryIn, ExitsReached;
  }

  lemma WidensToTop(j: nat, r: nat)
    requires ROUNDS <= r <= ROUNDS + 1
    ensures Widened(EntryIn(j, r)) == Anything && Widened(Merged(Anything, EntryIn(j, r))) == Anything
  {
  }

  lemma ExitsDiffer(n: Size, j: nat, r: nat)
    requires 1 <= r <= ROUNDS
    ensures ExitIn(n, j, r) != ExitIn(n, j, r - 1)
  {
    assert X in ExitIn(n, j, r) && X in ExitIn(n, j, r - 1);
    assert ExitIn(n, j, r)[X] != ExitIn(n, j, r - 1)[X];
  }

  /** A visit of the only pending block, when it has one successor. */
  lemma LoneVisit<S, E, Cond>(
    cfg: D.Graph<E, Cond>, an: D.Analysis<S, E, Cond>, eng: D.Engine<S>, j: nat, entry: D.Entry<S>, start: S, exit: S, next: nat)
    requires j < |cfg.blocks| && eng.worklist == [j] && cfg.blocks[j].succs == [Some(next)]
    requires D.ComputeEntry(cfg, an, eng.exits, j) == entry && (entry.hasPreds || j == cfg.entry)
    requires an.widen.Some? && D.StartState(an, eng, j, entry.state) == start && D.ExitOf(an, cfg.blocks[j], start) == Some(exit)
    ensures D.QueueOk(eng.worklist, |cfg.blocks|)
    ensures D.Visit(cfg, an, eng) ==
              D.Engine(if j in eng.exits && eng.exits[j] == exit then [] else [next], eng.exits[j := exit],
                       eng.visits[j := D.VisitCount(eng.visits, j) + 1],
                       if D.Widens(an, eng.visits, j) then eng.memory[j := start] else eng.memory)
  {
    hide D.ComputeEntry, D.ExitOf, D.StartState, D.Widens, D.Enqueued;
    assert eng.worklist[1..] == [];
    EnqueueOne(next);
    assert j in eng.exits && eng.exits[j] == exit ==> eng.exits[j := exit] == eng.exits;
  }

  lemma EnqueueOne(next: nat)
    ensures D.Enqueued([], [Some(next)]) == [next]
  {
    var w: seq<D.BlockId> := [];
    assert D.Enqueued(w, [Some(next)]) == D.Enqueued(w + [next], []);
    assert w + [next] == [next];
  }

  /** The engine after block j has been visited in round r. */
  ghost function Stepped(n: Size, eng: Engine, r: nat, j: nat): Engine
    requires r <= ROUNDS + 1
  {
    D.Engine(if r > ROUNDS then [] else [NextBlock(n, j)], eng.exits[j := ExitIn(n, j, r)], eng.visits[j := r + 1],
             if r >= ROUNDS then eng.memory[j := Anything] else eng.memory)
  }

  lemma VisitReached(n: Size, eng: Engine, r: nat, j: nat)
    requires Reached(n, eng, r, j)
    ensures D.QueueOk(eng.worklist, n + 3)
    ensures D.Visit(Loop(n), An(), eng) == Stepped(n, eng, r, j)
  {
    hide *;
    ReachedFacts(n, eng, r, j);
    EntryReached(n, eng, r, j);
    RingEntry(n, eng.exits, j);
    RingBlock(n, j);
    StartReached(n, eng, r, j);
    ExitReached(n, r, j);
    WidensAvailable();
    LoneVisit(Loop(n), An(), eng, j, D.Entry(EntryIn(j, r), true), StartIn(j, r), ExitIn(n, j, r), NextBlock(n, j));
    SteppedIs(n, eng, r, j);
  }

  lemma SteppedIs(n: Size, eng: Engine, r: nat, j: nat)
    requires r <= ROUNDS + 1
    ensures Stepped(n, eng, r, j) ==
              D.Engine(if r > ROUNDS then [] else [NextBlock(n, j)], eng.exits[j := ExitIn(n, j, r)], eng.visits[j := r + 1],
                       if r >= ROUNDS then eng.memory[j := StartIn(j, r)] else eng.memory)
  {
  }

  lemma ReachedFacts(n: Size, eng: Engine, r: nat, j: nat)
    requires Reached(n, eng, r, j)
    ensures r <= ROUNDS + 1 && InRing(n, j) && HEAD <= j < n + 3 && (r > ROUNDS ==> j == HEAD)
    ensures eng.worklist == [j] && D.VisitCount(eng.visits, j) == r
    ensures j in eng.exits && eng.exits[j] == ExitIn(n, j, r) <==> r > ROUNDS
  {
    if 0 < r <= ROUNDS {
      ExitsDiffer(n, j, r);
    }
    if r > ROUNDS {
      assert eng.exits[j] == ExitIn(n, j, r - 1);
      assert ExitIn(n, j, r) == Anything == ExitIn(n, j, r - 1);
    }
    hide ExitIn;
  }

  lemma WidensAvailable()
    ensures An().widen.Some?
  {
  }

  lemma ExitsNext(n: Size, exits: map<D.BlockId, IntervalMap>, r: nat, j: nat)
    requires r <= ROUNDS && InRing(n, j) && ExitsReached(n, exits, r, j)
    ensures ExitsReached(n, exits[j := ExitIn(n, j, r)], if j == Last(n) then r + 1 else r, NextBlock(n, j))
  {
    hide ExitIn, Between;
  }

  lemma VisitsNext(n: Size, visits: map<D.BlockId, nat>, r: nat, j: nat)
    requires InRing(n, j) && VisitsReached(n, visits, r, j)
    ensures VisitsReached(n, visits[j := r + 1], if j == Last(n) then r + 1 else r, NextBlock(n, j))
  {
    var next := visits[j := r + 1];
    forall b | HEAD <= b <= Last(n)
      ensures D.VisitCount(next, b) == if b == j then r + 1 else D.VisitCount(visits, b)
    {
    }
  }

  lemma SteppedReached(n: Size, eng: Engine, r: nat, j: nat)
    requires Reached(n, eng, r, j) && r <= ROUNDS
    ensures Reached(n, Stepped(n, eng, r, j), if j == Last(n) then r + 1 else r, NextBlock(n, j))
  {
    ExitsNext(n, eng.exits, r, j);
    VisitsNext(n, eng.visits, r, j);
    hide ExitIn, ExitsReached, VisitsReached;
  }

  /** Visits follow the loop round and round, until the head is visited in the tenth round. */
  lemma RoundAndRound(n: Size, eng: Engine, r: nat, j: nat)
    requires Reached(n, eng, r, j) && r <= ROUNDS
    ensures D.QueueOk(eng.worklist, n + 3)
    ensures Reached(n, D.Visit(Loop(n), An(), eng), if j == Last(n) then r + 1 else r, NextBlock(n, j))
  {
    hide *;
    VisitReached(n, eng, r, j);
    SteppedReached(n, eng, r, j);
  }

  // --- The first two blocks ---

  lemma FirstFacts(n: Size, eng: Engine, j: nat, s: IntervalMap, exit: IntervalMap)
    requires j < HEAD && eng.visits == (if j == 0 then map[] else map[0 := 1])
    requires eng.exits == (if j == 0 then map[] else map[0 := Anything])
    ensures j < 2 && j !in eng.visits && j !in eng.exits && HEAD == 1 + 1
  {
  }

  /** A visit of the only pending block for the first time. */
  lemma FirstVisit(n: Size, eng: Engine, j: nat, s: IntervalMap, exit: IntervalMap)
    requires j < HEAD && eng.worklist == [j] && eng.visits == (if j == 0 then map[] else map[0 := 1]) && eng.memory == map[]
    requires eng.exits == (if j == 0 then map[] else map[0 := Anything])
    requires s == Anything && exit == (if j == 0 then Anything else Between(0, 0))
    ensures D.QueueOk(eng.worklist, n + 3)
    ensures D.Visit(Loop(n), An(), eng) == D.Engine([j + 1], eng.exits[j := exit], eng.visits[j := 1], map[])
  {
    hide *;
    FirstFacts(n, eng, j, s, exit);
    FirstEntry(n, eng.exits, j);
    FirstExit(n, j);
    FirstBlocks(n);
    WidensAvailable();
    FirstStart(eng, j, s);
    LoneVisit(Loop(n), An(), eng, j, D.Entry(s, j == 1), s, exit, j + 1);
  }

  lemma FirstEntry(n: Size, exits: map<D.BlockId, IntervalMap>, j: nat)
    requires j < HEAD && exits == (if j == 0 then map[] else map[0 := Anything])
    ensures D.ComputeEntry(Loop(n), An(), exits, j) == D.Entry(Anything, j == 1)
  {
    FirstBlocks(n);
    if j == 1 {
      hide An, Loop, BlockAt, D.ComputeEntry;
      OnePredecessor(Loop(n), An(), exits, 1, 0);
    } else {
      assert IA.InitialState({X}, map[]) == Anything;
    }
  }

  lemma FirstStart(eng: Engine, j: nat, s: IntervalMap)
    requires j !in eng.visits
    ensures D.StartState(An(), eng, j, s) == s && !D.Widens(An(), eng.visits, j) && D.VisitCount(eng.visits, j) == 0
  {
  }

  lemma FirstExit(n: Size, j: nat)
    requires j < HEAD
    ensures D.ExitOf(An(), BlockAt(n, j), Anything) == Some(if j == 0 then Anything else Between(0, 0))
  {
    if j == 1 {
      var an := An();
      assert SignExtended(0, 32) == 0 by {
        Pow2Positive(31);
      }
      assert an.transfer(Reset, an.guard(Reset, Anything)) == Between(0, 0);
      assert [Reset][1..] == [];
      assert D.Transferred(an, [], Between(0, 0)) == Some(Between(0, 0));
      assert D.Transferred(an, [Reset], Anything) == Some(Between(0, 0));
    }
  }

  // --- Where the engine stops ---

  /** What the engine leaves: whether it drained, and the state the call is recorded in. */
  ghost predicate Stopped(n: Size, eng: Engine) {
    && (eng.worklist == [] <==> n <= 21)
    && n in eng.exits && eng.exits[n] == if n <= 23 then Anything else Between(0, 7)
  }

  ghost predicate StopsFrom(n: Size, eng: Engine, limit: nat) {
    D.QueueOk(eng.worklist, n + 3) && Stopped(n, D.Iterate(Loop(n), An(), eng, limit))
  }

  /** Visits of ring blocks before block j is visited in round r. */
  function Done(n: Size, r: nat, j: nat): int {
    n * r + j - HEAD
  }

  lemma DoneNext(n: Size, r: nat, j: nat)
    requires InRing(n, j)
    ensures Done(n, if j == Last(n) then r + 1 else r, NextBlock(n, j)) == Done(n, r, j) + 1
  {
  }

  lemma FullRounds(n: Size, r: nat)
    ensures r < ROUNDS ==> n * r + n <= ROUNDS * n
  {
    if r < ROUNDS {
      assert n * (r + 1) <= n * ROUNDS;
    }
  }

  /** With 8 * n + 22 visits of ring blocks in all, the state the loop is cut off in. */
  lemma CutOff(n: Size, r: nat, j: nat)
    requires Done(n, r, j) == ROUNDS * n + 22 && InRing(n, j) && r <= ROUNDS + 1 && (r > ROUNDS ==> j == HEAD)
    ensures (r == ROUNDS + 1 && n == 22) || (r == ROUNDS && j == 24 && n >= 23)
  {
    FullRounds(n, r);
  }

  lemma {:induction false} RunsOut(n: Size, eng: Engine, r: nat, j: nat, limit: nat)
    requires Reached(n, eng, r, j) && limit + Done(n, r, j) == ROUNDS * n + 22
    ensures StopsFrom(n, eng, limit)
    decreases limit
  {
    hide *;
    ReachedFacts(n, eng, r, j);
    VisitReached(n, eng, r, j);
    if limit == 0 {
      CutOff(n, r, j);
      StopsNow(n, eng, r, j);
    } else {
      if r > ROUNDS {
        Drains(n, eng, r, j, limit);
      } else {
        RoundAndRound(n, eng, r, j);
        DoneNext(n, r, j);
        RunsOut(n, D.Visit(Loop(n), An(), eng), if j == Last(n) then r + 1 else r, NextBlock(n, j), limit - 1);
      }
      StopsStep(n, eng, limit);
    }
  }

  lemma StoppedHere(n: Size, eng: Engine, r: nat, j: nat)
    requires Reached(n, eng, r, j)
    requires (r == ROUNDS + 1 && n == 22) || (r == ROUNDS && j == 24 && n >= 23)
    ensures Stopped(n, eng)
  {
    hide VisitsReached, MemoryReached;
    assert n in eng.exits && eng.exits[n] == if n < j then ExitIn(n, n, r) else ExitIn(n, n, r - 1);
  }

  lemma StopsNow(n: Size, eng: Engine, r: nat, j: nat)
    requires Reached(n, eng, r, j) && D.QueueOk(eng.worklist, n + 3)
    requires (r == ROUNDS + 1 && n == 22) || (r == ROUNDS && j == 24 && n >= 23)
    ensures StopsFrom(n, eng, 0)
  {
    StoppedHere(n, eng, r, j);
    hide Loop, An, Reached, Stopped;
  }

  lemma FewBlocks(n: Size, r: nat, j: nat, limit: nat)
    requires r == ROUNDS + 1 && j == HEAD && limit > 0 && limit + Done(n, r, j) == ROUNDS * n + 22
    ensures n <= 21
  {
  }

  lemma DrainedHere(n: Size, eng: Engine, r: nat, j: nat)
    requires Reached(n, eng, r, j) && r > ROUNDS
    ensures r == ROUNDS + 1 && j == HEAD
    ensures var next := Stepped(n, eng, r, j); next.worklist == [] && n in next.exits && next.exits[n] == Anything
  {
    assert ExitIn(n, j, r) == Anything == ExitIn(n, n, r - 1);
    hide ExitIn;
    assert InRing(n, n);
  }

  /** In the tenth round the head's exit no longer changes. */
  lemma Drains(n: Size, eng: Engine, r: nat, j: nat, limit: nat)
    requires Reached(n, eng, r, j) && r > ROUNDS && limit > 0 && limit + Done(n, r, j) == ROUNDS * n + 22
    requires D.QueueOk(eng.worklist, n + 3) && D.Visit(Loop(n), An(), eng) == Stepped(n, eng, r, j)
    ensures StopsFrom(n, D.Visit(Loop(n), An(), eng), limit - 1)
  {
    hide *;
    DrainedHere(n, eng, r, j);
    FewBlocks(n, r, j, limit);
    Drained(n, Stepped(n, eng, r, j), limit - 1);
  }

  lemma Drained(n: Size, eng: Engine, limit: nat)
    requires n <= 21 && eng.worklist == [] && n in eng.exits && eng.exits[n] == Anything
    ensures StopsFrom(n, eng, limit)
  {
    hide Loop, An;
  }

  lemma StopsStep(n: Size, eng: Engine, limit: nat)
    requires eng.worklist != [] && D.QueueOk(eng.worklist, n + 3) && limit > 0
    requires StopsFrom(n, D.Visit(Loop(n), An(), eng), limit - 1)
    ensures StopsFrom(n, eng, limit)
  {
    hide Loop, An, D.Visit, D.Iterate, Stopped;
    IterateUnfolds(Loop(n), An(), eng, limit);
  }

  lemma IterateUnfolds<S, E, Cond>(cfg: D.Graph<E, Cond>, an: D.Analysis<S, E, Cond>, eng: D.Engine<S>, limit: nat)
    requires eng.worklist != [] && D.QueueOk(eng.worklist, |cfg.blocks|)
    ensures D.QueueOk(D.Visit(cfg, an, eng).worklist, |cfg.blocks|)
    ensures limit == 0 ==> D.Iterate(cfg, an, eng, limit) == eng
    ensures limit > 0 ==> D.Iterate(cfg, an, eng, limit) == D.Iterate(cfg, an, D.Visit(cfg, an, eng), limit - 1)
  {
    D.VisitKeepsQueue(cfg, an, eng);
  }

  lemma CapOf<S, E, Cond>(n: nat, cfg: D.Graph<E, Cond>, an: D.Analysis<S, E, Cond>)
    requires |cfg.blocks| == n + 3 && an.latticeHeight == 6
    ensures D.MaxIterations(cfg, an) == ROUNDS * n + 24
  {
  }

  lemma CapIs(n: Size)
    ensures D.MaxIterations(Loop(n), An()) == ROUNDS * n + 24
  {
    assert |{X}| == 1;
    assert An().latticeHeight == 6;
    hide Loop, An;
    CapOf(n, Loop(n), An());
  }

  /** The engine when the loop is entered. */
  ghost function AtHead(): Engine {
    D.Engine([HEAD], map[0 := Anything, 1 := Between(0, 0)], map[0 := 1, 1 := 1], map[])
  }

  ghost function AtReset(): Engine {
    D.Engine([1], map[0 := Anything], map[0 := 1], map[])
  }

  lemma StartIs(n: Size)
    ensures D.Start<IntervalMap, Stmt, Expr>(Loop(n)) == D.Engine([0], map[], map[], map[])
  {
    hide Loop;
  }

  lemma AtResetIs(start: Engine)
    requires start == D.Engine([0], map[], map[], map[])
    ensures 0 < HEAD && AtReset() == D.Engine([0 + 1], start.exits[0 := Anything], start.visits[0 := 1], map[])
  {
    hide Anything;
  }

  lemma EntryVisited(n: Size, start: Engine)
    requires start == D.Engine([0], map[], map[], map[])
    ensures D.QueueOk(start.worklist, n + 3) && start.worklist != [] && D.Visit(Loop(n), An(), start) == AtReset()
  {
    hide *;
    AtResetIs(start);
    FirstVisit(n, start, 0, Anything, Anything);
  }

  lemma ResetVisited(n: Size)
    ensures D.QueueOk(AtReset().worklist, n + 3) && AtReset().worklist != [] && D.Visit(Loop(n), An(), AtReset()) == AtHead()
  {
    hide An, D.Visit, Loop, D.QueueOk;
    FirstVisit(n, AtReset(), 1, Anything, Between(0, 0));
  }

  lemma HeadReached(n: Size)
    ensures Reached(n, AtHead(), 0, HEAD)
    ensures Done(n, 0, HEAD) == 0
  {
    hide Between;
  }

  lemma EngineStops(n: Size)
    ensures StopsFrom(n, D.Start(Loop(n)), D.MaxIterations(Loop(n), An()))
  {
    hide *;
    CapIs(n);
    StartIs(n);
    EntryVisited(n, D.Start(Loop(n)));
    ResetVisited(n);
    HeadReached(n);
    RunsOut(n, AtHead(), 0, HEAD, ROUNDS * n + 22);
    StopsStep(n, AtReset(), ROUNDS * n + 23);
    StopsStep(n, D.Start(Loop(n)), ROUNDS * n + 24);
  }

  /** What is recorded at the call. */
  function Recorded(n: Size): IntervalMap {
    if n <= 23 then Anything else Between(0, 7)
  }

  /** The analysis converges for up to 21 blocks; from 24 on the range at the call is the stale one of round eight. */
  lemma RingResult(n: Size)
    ensures D.Solve(Loop(n), An()).converged <==> n <= 21
    ensures SiteState(D.Solve(Loop(n), An()).report, (Last(n), 0)) == Recorded(n)
  {
    EngineStops(n);
    hide Loop, An, D.Iterate, D.Report, D.MaxIterations, D.Start, D.Solve;
    SolveIs(Loop(n), An());
    var eng := D.Iterate(Loop(n), An(), D.Start(Loop(n)), D.MaxIterations(Loop(n), An()));
    RecordedAtCall(n, eng.exits);
  }

  lemma SolveIs<S, E, Cond>(cfg: D.Graph<E, Cond>, an: D.Analysis<S, E, Cond>)
    ensures D.QueueOk(D.Start<S, E, Cond>(cfg).worklist, |cfg.blocks|)
    ensures var eng := D.Iterate(cfg, an, D.Start(cfg), D.MaxIterations(cfg, an));
            && D.Solve(cfg, an).converged == (eng.worklist == [])
            && D.Solve(cfg, an).report == D.Report(cfg, an, eng.exits, |cfg.blocks|)
  {
  }

  lemma RecordedAtCall(n: Size, exits: map<D.BlockId, IntervalMap>)
    requires n in exits
    ensures var report := D.Report(Loop(n), An(), exits, |Loop(n).blocks|);
            (Last(n), 0) in report && report[(Last(n), 0)] == exits[n]
  {
    var b := Last(n);
    RingEntry(n, exits, b);
    RingBlock(n, b);
    GuardsNothing(exits[n]);
    hide An, Loop, BlockAt, D.ComputeEntry;
    DS.ReportFrame(Loop(n), An(), exits, b, 0, n + 3);
    var before := D.Report(Loop(n), An(), exits, b);
    hide D.Report;
    DS.ReportElemsFrame(An(), b, [CallG, Step1], 1, An().transfer(CallG, exits[n]), before[(b, 0) := exits[n]], (b, 0));
  }

  lemma GuardsNothing(s: IntervalMap)
    ensures An().guard(CallG, s) == s && !An().fatal(CallG)
  {
  }
}
