/**
 What the seeding pass loses by not asking whether the analysis converged, on the counting
 loops of every length: up to 23 blocks the recorded entry intervals hold on all executions,
 from 24 on an execution leaves them.
 */
module SeedingGap {
  import opened Int64
  import opened Ast
  import opened IntervalEval
  import opened ParamIntervals
  import opened CountingLoop
  import I = Intervals
  import D = Dataflow
  import DS = DataflowSoundness
  import IA = IntervalAnalysis

  const P: Decl := Decl(1, IntTy, false)

  function Caller(n: Size): Function {
    Function([], {X}, Loop(n))
  }

  function Callee(): Function {
    var entry: Block := D.Block([], None, false, false, [], [Some(1)]);
    var exit: Block := D.Block([], None, false, false, [Some(0)], []);
    Function([P], {P}, D.Cfg([entry, exit], 0))
  }

  function U(n: Size): Unit {
    Unit([Caller(n), Callee()], {1}, map[], Never())
  }

  lemma CallerHooksAre(n: Size, prev: ParamIntervalMap)
    ensures CallerHooks(U(n), prev, 0) == An()
  {
  }

  // --- The seeding pass ---

  lemma {:induction false} NoSitesInBlock(u: Unit, fn: Function, b: D.BlockId, n: nat)
    requires forall i: nat :: i < n ==> !IsSite(u, fn, (b, i))
    ensures SitesInBlock(u, fn, b, n) == []
  {
    hide IsSite;
    if n > 0 {
      NoSitesInBlock(u, fn, b, n - 1);
    }
  }

  lemma {:induction false} NoSites(u: Unit, fn: Function, n: nat)
    requires n <= |fn.body.blocks| && forall b: nat, i: nat :: b < n ==> !IsSite(u, fn, (b, i))
    ensures SitesInBlocks(u, fn, n) == []
  {
    hide IsSite, SitesInBlock;
    if n > 0 {
      NoSites(u, fn, n - 1);
      NoSitesInBlock(u, fn, n - 1, |fn.body.blocks[n - 1].elems|);
    }
  }

  lemma UnitIs(n: Size)
    ensures |U(n).fns| == 2 && U(n).fns[0] == Caller(n) && U(n).fns[1] == Callee() && U(n).tracked == {1}
    ensures Caller(n).body == Loop(n) && Caller(n).vars == {X} && |Callee().params| == 1
    ensures forall b :: 0 <= b < |Callee().body.blocks| ==> Callee().body.blocks[b].elems == []
  {
    hide Loop;
  }

  /** The calls of a function whose blocks are the loop's. */
  lemma SitesAre(n: Size, u: Unit, f: Function, b: nat, i: nat)
    requires u.tracked == {1} && |f.body.blocks| == n + 3 && forall j :: 0 <= j < n + 3 ==> f.body.blocks[j] == BlockAt(n, j)
    ensures IsSite(u, f, (b, i)) <==> b == Last(n) && i == 0
  {
    if b < n + 3 {
      CallsAre(n, b, i);
      hide BlockAt;
    } else {
      hide BlockAt;
    }
  }

  lemma CallsAre(n: Size, b: nat, i: nat)
    ensures i < |BlockAt(n, b).elems| && BlockAt(n, b).elems[i].Call? <==> b == Last(n) && i == 0
    ensures BlockAt(n, Last(n)).elems == [CallG, Step1]
  {
    if InRing(n, b) {
      RingBlock(n, b);
    }
    RingBlock(n, Last(n));
  }

  lemma OneSiteIn(n: Size, u: Unit, f: Function)
    requires |f.body.blocks| == n + 3 && |f.body.blocks[Last(n)].elems| == 2
    requires forall b: nat, i: nat :: IsSite(u, f, (b, i)) <==> b == Last(n) && i == 0
    ensures CallSites(u, f) == [(Last(n), 0)]
  {
    hide IsSite;
    var b := Last(n);
    NoSites(u, f, b);
    NoSitesInBlock(u, f, b + 1, |f.body.blocks[b + 1].elems|);
    assert SitesInBlock(u, f, b, 0) == [];
    assert SitesInBlock(u, f, b, 1) == [(b, 0)];
    assert SitesInBlock(u, f, b, 2) == [(b, 0)];
    assert SitesInBlocks(u, f, b + 1) == [(b, 0)];
  }

  lemma OneSite(n: Size)
    ensures CallSites(U(n), Caller(n)) == [(Last(n), 0)] && CallSites(U(n), Callee()) == []
    ensures IsSite(U(n), Caller(n), (Last(n), 0)) && Caller(n).body.blocks[Last(n)].elems == [CallG, Step1]
  {
    UnitIs(n);
    RingBlock(n, Last(n));
    hide U, Caller, Callee, Loop, BlockAt, IsSite, CallSites;
    forall b: nat, i: nat
      ensures IsSite(U(n), Caller(n), (b, i)) <==> b == Last(n) && i == 0
    {
      SitesAre(n, U(n), Caller(n), b, i);
    }
    OneSiteIn(n, U(n), Caller(n));
    NoSitesInEmpty(U(n), Callee());
  }

  lemma NoSitesInEmpty(u: Unit, g: Function)
    requires forall b :: 0 <= b < |g.body.blocks| ==> g.body.blocks[b].elems == []
    ensures CallSites(u, g) == []
  {
    NoSites(u, g, |g.body.blocks|);
  }

  /** The entry interval every pass records for the parameter of g. */
  function Entered(n: Size): ParamIntervalMap {
    map[1 := [if n <= 23 then I.Top else I.Range(0, 7)]]
  }

  lemma NothingReached(u: Unit)
    requires |u.fns| == 2 && u.tracked == {1} && |u.fns[1].params| == 1
    ensures Unreached(u) == map[1 := [I.Bottom]]
  {
    assert Unreached(u).Keys == {1};
    assert Unreached(u)[1] == [I.Bottom];
  }

  lemma ArgumentJoins(n: Size)
    ensures JoinArgs([I.Bottom], [VarRef(X)], Recorded(n)) == [if n <= 23 then I.Top else I.Range(0, 7)]
  {
  }

  lemma SiteJoins(n: Size, u: Unit, f: Function, report: Report)
    requires var site := (Last(n), 0);
             IsSite(u, f, site) && f.body.blocks[site.0].elems[0] == CallG && SiteState(report, site) == Recorded(n)
    ensures ApplySites(map[1 := [I.Bottom]], u, f, report, [(Last(n), 0)]) == Entered(n)
  {
    ArgumentJoins(n);
    hide SiteState, IsSite, JoinArgs, Recorded;
    var m: ParamIntervalMap := map[1 := [I.Bottom]];
    assert ApplySite(m, u, f, report, (Last(n), 0)) == Entered(n);
    assert [(Last(n), 0)][1..] == [];
    var none: seq<Site> := [];
    assert ApplySites(Entered(n), u, f, report, none) == Entered(n);
  }

  lemma Callers(n: Size, prev: ParamIntervalMap)
    ensures CallerResult(U(n), prev, 0) == D.Solve(Loop(n), An())
  {
    CallerHooksAre(n, prev);
    hide An, D.Solve;
  }

  lemma NothingLifted(n: Size)
    ensures LiftUnreached(Entered(n)) == Entered(n)
  {
    assert LiftUnreached(Entered(n))[1] == Entered(n)[1];
  }

  /** Every pass computes the same entry, whatever it starts from. */
  lemma PassEnters(n: Size, prev: ParamIntervalMap)
    ensures SeedingPass(U(n), prev) == Entered(n)
  {
    hide *;
    RingResult(n);
    Callers(n, prev);
    OneSite(n);
    UnitIs(n);
    NothingReached(U(n));
    SiteJoins(n, U(n), Caller(n), D.Solve(Loop(n), An()).report);
    NothingLifted(n);
    OneCallerPass(U(n), prev, Entered(n));
  }

  /** A pass over a unit in which only the first of two functions calls a tracked one. */
  lemma OneCallerPass(u: Unit, prev: ParamIntervalMap, m: ParamIntervalMap)
    requires |u.fns| == 2 && CallSites(u, u.fns[1]) == [] && LiftUnreached(m) == m
    requires ApplySites(Unreached(u), u, u.fns[0], CallerResult(u, prev, 0).report, CallSites(u, u.fns[0])) == m
    ensures SeedingPass(u, prev) == m
  {
    hide CallSites, CallerResult, LiftUnreached, Unreached;
    assert JoinCallers(u, prev, 0) == Unreached(u);
    assert JoinCallers(u, prev, 1) == m;
    assert JoinCallers(u, prev, 2) == m;
  }

  lemma BuildEnters(n: Size)
    ensures BuildParamIntervals(U(n)) == Entered(n)
  {
    PassEnters(n, map[]);
    PassEnters(n, Entered(n));
    assert Entered(n) != map[] by {
      assert 1 in Entered(n);
    }
    hide SeedingPass, Entered;
    assert Passes(U(n), Entered(n), 2) == Entered(n);
  }

  // --- Executions of the loop ---

  ghost function M(): DS.Meaning<IntervalMap, Store, Stmt, Expr> {
    IA.StoreMeaning({X}, map[], Never())
  }

  function Holding(v: int): Store {
    map[X := v]
  }

  lemma SmallHoldable(v: nat)
    requires v <= 101
    ensures Holdable(X, v) && InType(IntTy, v)
  {
    assert Pow2(7) == 128;
    Pow2Monotone(7, 31);
    Pow2Positive(31);
  }

  lemma SmallLiterals()
    ensures SignedLiteralsInStmt(Reset) && SignedLiteralsInStmt(Step1)
  {
    Pow2Positive(31);
    assert Pow2(1) == 2;
    Pow2Monotone(1, 31);
  }

  lemma ResetRuns()
    ensures M().step(Reset, map[], Holding(0))
  {
    SmallHoldable(0);
    SmallLiterals();
    hide Pow2, InType;
    var empty: Store := map[];
    assert Evals(IntLit(0, IntTy), empty, 0);
    assert Rewrites(empty, X, Holding(0));
    assert !Never()(Reset);
    assert IA.Covered(Reset, {X}, Never());
    assert Step(Reset, empty, Holding(0));
  }

  lemma CallRuns(v: nat)
    ensures M().step(CallG, Holding(v), Holding(v))
  {
    assert !Never()(CallG);
    assert IA.Covered(CallG, {X}, Never());
    assert Step(CallG, Holding(v), Holding(v));
  }

  lemma StepRuns(v: nat)
    requires v <= 100
    ensures M().step(Step1, Holding(v), Holding(v + 1))
  {
    SmallHoldable(v + 1);
    SmallLiterals();
    hide Pow2, InType;
    var env := Holding(v);
    assert Evals(VarRef(X), env, v) && Evals(IntLit(1, IntTy), env, 1);
    assert ArithResult(Add, v, 1) == Some(v + 1);
    assert Evals(Arith(Add, VarRef(X), IntLit(1, IntTy), IntTy), env, v + 1);
    assert Rewrites(env, X, Holding(v + 1));
    assert !Never()(Step1);
    assert IA.Covered(Step1, {X}, Never());
    assert Step(Step1, env, Holding(v + 1));
  }

  /** A block with one successor is left for it once its elements have run. */
  lemma BlockMoves<S, C(!new), E, Cond>(cfg: D.Graph<E, Cond>, m: DS.Meaning<S, C, E, Cond>, a: nat, c: C, b: nat, c': C)
    requires a < |cfg.blocks| && !cfg.blocks[a].noReturn && cfg.blocks[a].succs == [Some(b)]
    requires DS.Executes(m, cfg.blocks[a].elems, c, c')
    ensures DS.Moves(cfg, m, a, c, b, c')
  {
    assert DS.Follows(cfg, m, a, 0, c', b);
  }

  lemma ExecutesOne<S, C(!new), E, Cond>(m: DS.Meaning<S, C, E, Cond>, e: E, c: C, c': C)
    requires m.step(e, c, c')
    ensures DS.Executes(m, [e], c, c')
  {
    assert DS.Executes(m, [], c', c');
    assert [e][1..] == [];
  }

  lemma ExecutesTwo<S, C(!new), E, Cond>(m: DS.Meaning<S, C, E, Cond>, e: E, f: E, c: C, mid: C, c': C)
    requires m.step(e, c, mid) && m.step(f, mid, c')
    ensures DS.Executes(m, [e, f], c, c')
  {
    ExecutesOne(m, f, mid, c');
    assert [e, f][1..] == [f];
  }

  /** From the entry of the function to block j, the loop having gone round v times. */
  function Walk(n: Size, v: nat, j: nat): (r: seq<(D.BlockId, Store)>)
    requires InRing(n, j)
    ensures r != [] && r[0] == (0, map[]) && r[|r| - 1] == (j, Holding(v))
    decreases v, j, 1
  {
    Before(n, v, j) + [(j, Holding(v))]
  }

  function Before(n: Size, v: nat, j: nat): (r: seq<(D.BlockId, Store)>)
    requires InRing(n, j)
    ensures r != [] && r[0] == (0, map[])
    decreases v, j, 0
  {
    if j > HEAD then Walk(n, v, j - 1)
    else if v > 0 then Walk(n, v - 1, Last(n))
    else [(0, map[]), (1, map[])]
  }

  lemma WalkUnfolds(n: Size, v: nat, j: nat)
    requires InRing(n, j)
    ensures Walk(n, v, j) == Before(n, v, j) + [(j, Holding(v))]
    ensures j > HEAD ==> InRing(n, j - 1) && NextBlock(n, j - 1) == j && j - 1 != Last(n) && Before(n, v, j) == Walk(n, v, j - 1)
    ensures j == HEAD && v > 0 ==> NextBlock(n, Last(n)) == HEAD && Before(n, v, j) == Walk(n, v - 1, Last(n))
    ensures j == HEAD && v == 0 ==> Before(n, v, j) == [(0, map[]), (1, map[])]
    ensures InRing(n, Last(n)) && j >= HEAD && Last(n) != HEAD
  {
  }

  lemma RingMoves(n: Size, v: nat, j: nat)
    requires InRing(n, j) && v <= 100
    ensures DS.Moves(Loop(n), M(), j, Holding(v), NextBlock(n, j), Holding(if j == Last(n) then v + 1 else v))
  {
    RingBlock(n, j);
    LastRuns(v);
    hide M, Loop, BlockAt, DS.Moves, NextBlock, Holding;
    if j != Last(n) {
      assert DS.Executes(M(), [], Holding(v), Holding(v));
    }
    BlockMoves(Loop(n), M(), j, Holding(v), NextBlock(n, j), Holding(if j == Last(n) then v + 1 else v));
  }

  lemma FirstMoves(n: Size)
    ensures DS.Moves(Loop(n), M(), 0, map[], 1, map[])
    ensures DS.Moves(Loop(n), M(), 1, map[], HEAD, Holding(0))
  {
    FirstBlocks(n);
    ResetRuns();
    hide M, Loop, BlockAt, DS.Moves, Holding;
    var empty: Store := map[];
    assert DS.Executes(M(), [], empty, empty);
    BlockMoves(Loop(n), M(), 0, empty, 1, empty);
    ExecutesOne(M(), Reset, empty, Holding(0));
    BlockMoves(Loop(n), M(), 1, empty, HEAD, Holding(0));
  }

  lemma LastRuns(v: nat)
    requires v <= 100
    ensures DS.Executes(M(), [CallG, Step1], Holding(v), Holding(v + 1))
  {
    CallRuns(v);
    StepRuns(v);
    hide M;
    ExecutesTwo(M(), CallG, Step1, Holding(v), Holding(v), Holding(v + 1));
  }

  lemma StartsAnywhere(env: Store)
    requires env == map[]
    ensures M().gamma(IA.InitialState({X}, map[]), env)
  {
    assert WellTyped(env) && Describes(IA.InitialState({X}, map[]), env);
  }

  lemma RunExtends<S, C(!new), E, Cond>(
    cfg: D.Graph<E, Cond>, m: DS.Meaning<S, C, E, Cond>, initial: S, run: seq<(D.BlockId, C)>, b: D.BlockId, c: C)
    requires DS.IsRun(cfg, m, initial, run) && DS.Moves(cfg, m, run[|run| - 1].0, run[|run| - 1].1, b, c)
    ensures DS.IsRun(cfg, m, initial, run + [(b, c)])
  {
    hide DS.Moves;
    var longer := run + [(b, c)];
    forall i {:trigger longer[i]} | 0 < i < |longer|
      ensures DS.Moves(cfg, m, longer[i - 1].0, longer[i - 1].1, longer[i].0, longer[i].1)
    {
      if i < |run| {
        assert longer[i] == run[i] && longer[i - 1] == run[i - 1];
      }
    }
  }

  lemma FirstRun(n: Size)
    ensures DS.IsRun(Loop(n), M(), IA.InitialState({X}, map[]), [(0, map[]), (1, map[])])
  {
    FirstMoves(n);
    StartsAnywhere(map[]);
    hide M, Loop, DS.Moves, IA.InitialState;
    var start: seq<(D.BlockId, Store)> := [(0, map[])];
    assert start + [(1, map[])] == [(0, map[]), (1, map[])];
    RunExtends(Loop(n), M(), IA.InitialState({X}, map[]), start, 1, map[]);
  }

  lemma {:induction false} WalkIsRun(n: Size, v: nat, j: nat)
    requires InRing(n, j) && v <= 100
    ensures DS.IsRun(Loop(n), M(), IA.InitialState({X}, map[]), Walk(n, v, j))
    decreases v, j
  {
    hide *;
    WalkUnfolds(n, v, j);
    if j > HEAD {
      WalkIsRun(n, v, j - 1);
      RingMoves(n, v, j - 1);
    } else if v > 0 {
      WalkIsRun(n, v - 1, Last(n));
      RingMoves(n, v - 1, Last(n));
    } else {
      FirstMoves(n);
      FirstRun(n);
    }
    RunExtends(Loop(n), M(), IA.InitialState({X}, map[]), Before(n, v, j), j, Holding(v));
  }

  lemma EntersEmpty(n: Size)
    ensures |U(n).fns| > 0 && Meaning(U(n), 0) == M() && EntryStore(Caller(n), [], map[]) && !U(n).fatal(CallG)
  {
    UnitIs(n);
    hide Loop;
  }

  lemma CallReached(n: Size, v: nat)
    requires v <= 100
    ensures |U(n).fns| > 0 && ReachesSite(U(n), Frame(0, []), Walk(n, v, Last(n)), (Last(n), 0), Holding(v))
  {
    UnitIs(n);
    OneSite(n);
    EntersEmpty(n);
    WalkIsRun(n, v, Last(n));
    var walk := Walk(n, v, Last(n));
    hide *;
    RingEnd(n);
    ReachedBy(n, v, U(n), Caller(n), walk);
  }

  lemma RingEnd(n: Size)
    ensures InRing(n, Last(n))
  {
  }

  lemma ReachedBy(n: Size, v: nat, u: Unit, f: Function, run: seq<(D.BlockId, Store)>)
    requires |u.fns| == 2 && u.fns[0] == f && Meaning(u, 0) == M() && f.vars == {X} && f.body == Loop(n)
    requires DS.IsRun(Loop(n), M(), IA.InitialState({X}, map[]), run) && EntryStore(f, [], run[0].1)
    requires run[|run| - 1] == (Last(n), Holding(v)) && IsSite(u, f, (Last(n), 0)) && !u.fatal(f.body.blocks[Last(n)].elems[0])
    ensures ReachesSite(u, Frame(0, []), run, (Last(n), 0), Holding(v))
  {
    hide M, Loop, DS.IsRun, EntryStore, IsSite;
    var none := f.body.blocks[Last(n)].elems[..0];
    assert none == [];
    assert DS.Executes(M(), none, Holding(v), Holding(v));
  }

  /** After v rounds the call passes v. */
  lemma PassesRound(n: Size, v: nat)
    requires v <= 100
    ensures IsHistory(U(n), [Frame(0, []), Frame(1, [v])])
  {
    UnitIs(n);
    OneSite(n);
    CallReached(n, v);
    var walk := Walk(n, v, Last(n));
    hide *;
    CallPasses(n, v, U(n), walk);
    TwoCalls(v, U(n));
  }

  lemma CallPasses(n: Size, v: nat, u: Unit, run: seq<(D.BlockId, Store)>)
    requires |u.fns| == 2 && |u.fns[1].params| == 1 && IsSite(u, u.fns[0], (Last(n), 0))
    requires u.fns[0].body.blocks[Last(n)].elems[0] == CallG
    requires ReachesSite(u, Frame(0, []), run, (Last(n), 0), Holding(v))
    ensures Calls(u, Frame(0, []), Frame(1, [v]))
  {
    hide ReachesSite;
    assert Evals(VarRef(X), Holding(v), v);
    assert CallsAt(u, Frame(0, []), Frame(1, [v]), run, (Last(n), 0), Holding(v));
  }

  lemma TwoCalls(v: nat, u: Unit)
    requires u.tracked == {1} && Calls(u, Frame(0, []), Frame(1, [v]))
    ensures IsHistory(u, [Frame(0, []), Frame(1, [v])])
  {
    hide Calls;
    var history := [Frame(0, []), Frame(1, [v])];
    assert history[..1] == [Frame(0, [])];
    assert IsHistory(u, history[..1]);
  }

  // --- The gap ---

  lemma OneCaller(u: Unit, prev: ParamIntervalMap)
    requires |u.fns| == 2 && CallSites(u, u.fns[0]) != [] && CallSites(u, u.fns[1]) == []
    ensures PassConverges(u, prev) <==> CallerResult(u, prev, 0).converged
  {
    hide CallSites, CallerResult;
  }

  lemma RingConverges(n: Size)
    ensures PassConverges(U(n), map[]) <==> n <= 21
  {
    RingResult(n);
    Callers(n, map[]);
    OneSite(n);
    UnitIs(n);
    hide *;
    OneCaller(U(n), map[]);
  }

  lemma EverythingWithin(n: Size, u: Unit)
    requires n <= 23 && u.tracked == {1}
    ensures SoundMap(u, Entered(n))
  {
    hide IsHistory;
    forall f: Frame
      ensures Within(Entered(n), f)
    {
    }
  }

  lemma StaleExcludes(n: Size, u: Unit)
    requires n >= 24 && IsHistory(u, [Frame(0, []), Frame(1, [8])])
    ensures !SoundMap(u, Entered(n))
  {
    hide IsHistory;
    var history := [Frame(0, []), Frame(1, [8])];
    assert !ParamEntryInterval(Entered(n), 1, 0).Contains(8);
    assert !Within(Entered(n), history[1]);
  }

  /**
   For loops of any length, the recorded entry intervals are sound exactly up to 23 blocks,
   although the analysis is cut off before it converges from 22 on. From 24 on the interval
   of g is [0, 7], and the ninth call passes 8.
   */
  lemma SeedingSoundExact(n: Size)
    ensures PassConverges(U(n), map[]) <==> n <= 21
    ensures BuildParamIntervals(U(n)) == map[1 := [if n <= 23 then I.Top else I.Range(0, 7)]]
    ensures IsHistory(U(n), [Frame(0, []), Frame(1, [8])])
    ensures SoundMap(U(n), BuildParamIntervals(U(n))) <==> n <= 23
  {
    RingConverges(n);
    BuildEnters(n);
    PassesRound(n, 8);
    UnitIs(n);
    assert Entered(n) == map[1 := [if n <= 23 then I.Top else I.Range(0, 7)]];
    hide *;
    if n <= 23 {
      EverythingWithin(n, U(n));
    } else {
      StaleExcludes(n, U(n));
    }
  }
}
