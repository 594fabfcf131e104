/**
 How precise parameter seeding is: each pass records the smallest intervals that contain what
 the calls pass, and three passes carry a constant exactly three calls down.
 */
module SeedingExact {
  import opened Int64
  import opened Ast
  import opened IntervalEval
  import opened ParamIntervals
  import I = Intervals
  import D = Dataflow
  import EngineExact
  import CountingLoop
  import IA = IntervalAnalysis

  // --- One pass ---

  /** K contains what every call of g, in the analysed functions below n, passes for parameter j. */
  ghost predicate CallsWithin(u: Unit, prev: ParamIntervalMap, n: nat, g: FnId, j: nat, k: Interval)
    requires n <= |u.fns|
  {
    forall f: FnId, site: Site :: f < n && IsSite(u, u.fns[f], site) && u.fns[f].body.blocks[site.0].elems[site.1].callee == g ==>
      I.Subset(ArgInterval(u.fns[f].body.blocks[site.0].elems[site.1].args, SiteState(CallerResult(u, prev, f).report, site), j), k)
  }

  ghost predicate SitesWithin(u: Unit, fn: Function, report: Report, sites: seq<Site>, g: FnId, j: nat, k: Interval) {
    forall site :: site in sites && IsSite(u, fn, site) && fn.body.blocks[site.0].elems[site.1].callee == g ==>
      I.Subset(ArgInterval(fn.body.blocks[site.0].elems[site.1].args, SiteState(report, site), j), k)
  }

  ghost predicate EntryWithin(m: ParamIntervalMap, g: FnId, j: nat, k: Interval) {
    g in m && j < |m[g]| && I.Subset(m[g][j], k)
  }

  lemma ApplySiteWithin(m: ParamIntervalMap, u: Unit, fn: Function, report: Report, site: Site, g: FnId, j: nat, k: Interval)
    requires EntryWithin(m, g, j, k) && SitesWithin(u, fn, report, [site], g, j, k)
    ensures EntryWithin(ApplySite(m, u, fn, report, site), g, j, k)
  {
    if IsSite(u, fn, site) && fn.body.blocks[site.0].elems[site.1].callee == g {
      assert site in [site];
      I.JoinIsLeast(m[g][j], ArgInterval(fn.body.blocks[site.0].elems[site.1].args, SiteState(report, site), j));
    }
  }

  lemma {:induction false} ApplySitesWithin(
    m: ParamIntervalMap, u: Unit, fn: Function, report: Report, sites: seq<Site>, g: FnId, j: nat, k: Interval)
    requires EntryWithin(m, g, j, k) && SitesWithin(u, fn, report, sites, g, j, k)
    ensures EntryWithin(ApplySites(m, u, fn, report, sites), g, j, k)
    decreases |sites|
  {
    hide IsSite, EntryWithin, ApplySite, ArgInterval, SiteState;
    if sites != [] {
      assert sites[0] in sites;
      ApplySiteWithin(m, u, fn, report, sites[0], g, j, k);
      ApplySitesWithin(ApplySite(m, u, fn, report, sites[0]), u, fn, report, sites[1..], g, j, k);
    }
  }

  lemma {:induction false} JoinCallersWithin(u: Unit, prev: ParamIntervalMap, n: nat, g: FnId, j: nat, k: Interval)
    requires n <= |u.fns| && g in u.tracked && g < |u.fns| && j < |u.fns[g].params| && CallsWithin(u, prev, n, g, j, k)
    ensures EntryWithin(JoinCallers(u, prev, n), g, j, k)
  {
    hide ApplySites, CallerResult, CallSites, CallsWithin, SitesWithin, EntryWithin, Unreached;
    if n > 0 {
      FewerCallers(u, prev, n - 1, n, g, j, k);
      JoinCallersWithin(u, prev, n - 1, g, j, k);
      CallerWithin(u, prev, n - 1, n, g, j, k);
      ApplySitesWithin(JoinCallers(u, prev, n - 1), u, u.fns[n - 1], CallerResult(u, prev, n - 1).report, CallSites(u, u.fns[n - 1]), g, j, k);
    } else {
      UnreachedWithin(u, g, j, k);
    }
  }

  lemma FewerCallers(u: Unit, prev: ParamIntervalMap, m: nat, n: nat, g: FnId, j: nat, k: Interval)
    requires m <= n <= |u.fns| && CallsWithin(u, prev, n, g, j, k)
    ensures CallsWithin(u, prev, m, g, j, k)
  {
    hide CallerResult, ArgInterval, SiteState, IsSite, I.Subset;
  }

  lemma UnreachedWithin(u: Unit, g: FnId, j: nat, k: Interval)
    requires g in u.tracked && g < |u.fns| && j < |u.fns[g].params|
    ensures EntryWithin(Unreached(u), g, j, k)
  {
    assert Unreached(u)[g][j] == I.Bottom;
  }

  lemma CallerWithin(u: Unit, prev: ParamIntervalMap, f: FnId, n: nat, g: FnId, j: nat, k: Interval)
    requires f < n <= |u.fns| && CallsWithin(u, prev, n, g, j, k)
    ensures SitesWithin(u, u.fns[f], CallerResult(u, prev, f).report, CallSites(u, u.fns[f]), g, j, k)
  {
    hide CallerResult, CallSites, ArgInterval, SiteState, IsSite;
  }

  /**
   The joined entry of a parameter is the smallest interval that contains what every call of
   its function passes: an interval contains it exactly when it contains all of that.
   */
  lemma JoinCallersExact(u: Unit, prev: ParamIntervalMap, g: FnId, j: nat, k: Interval)
    requires g in u.tracked && g < |u.fns| && j < |u.fns[g].params|
    ensures EntryWithin(JoinCallers(u, prev, |u.fns|), g, j, k) <==> CallsWithin(u, prev, |u.fns|, g, j, k)
  {
    hide JoinCallers, CallerResult, ArgInterval, SiteState, IsSite;
    if CallsWithin(u, prev, |u.fns|, g, j, k) {
      JoinCallersWithin(u, prev, |u.fns|, g, j, k);
    }
    if EntryWithin(JoinCallers(u, prev, |u.fns|), g, j, k) {
      forall f: FnId, site: Site, v: int |
        f < |u.fns| && IsSite(u, u.fns[f], site) && CalleeAt(u, f, site) == g && ArgumentAt(u, prev, f, site, j).Contains(v)
        ensures k.Contains(v)
      {
        CalledAt(u, prev, f, site, g, j, v);
        assert JoinCallers(u, prev, |u.fns|)[g][j].Contains(v);
      }
      AllWithin(u, prev, g, j, k);
    }
  }

  function CalleeAt(u: Unit, f: FnId, site: Site): FnId
    requires f < |u.fns| && IsSite(u, u.fns[f], site)
  {
    u.fns[f].body.blocks[site.0].elems[site.1].callee
  }

  function ArgumentAt(u: Unit, prev: ParamIntervalMap, f: FnId, site: Site, j: nat): Interval
    requires f < |u.fns| && IsSite(u, u.fns[f], site)
  {
    ArgInterval(u.fns[f].body.blocks[site.0].elems[site.1].args, SiteState(CallerResult(u, prev, f).report, site), j)
  }

  lemma AllWithin(u: Unit, prev: ParamIntervalMap, g: FnId, j: nat, k: Interval)
    requires forall f: FnId, site: Site, v: int {:trigger ArgumentAt(u, prev, f, site, j).Contains(v)} ::
               f < |u.fns| && IsSite(u, u.fns[f], site) && CalleeAt(u, f, site) == g && ArgumentAt(u, prev, f, site, j).Contains(v) ==> k.Contains(v)
    ensures CallsWithin(u, prev, |u.fns|, g, j, k)
  {
    hide CallerResult, ArgInterval, SiteState, IsSite;
    forall f: FnId, site: Site | f < |u.fns| && IsSite(u, u.fns[f], site) && CalleeAt(u, f, site) == g
      ensures I.Subset(ArgumentAt(u, prev, f, site, j), k)
    {
      forall v | ArgumentAt(u, prev, f, site, j).Contains(v)
        ensures k.Contains(v)
      {
      }
    }
  }

  lemma CalledAt(u: Unit, prev: ParamIntervalMap, f: FnId, site: Site, g: FnId, j: nat, v: int)
    requires f < |u.fns| && IsSite(u, u.fns[f], site) && CalleeAt(u, f, site) == g && g < |u.fns| && j < |u.fns[g].params|
    requires ArgumentAt(u, prev, f, site, j).Contains(v)
    ensures EntryContains(JoinCallers(u, prev, |u.fns|), g, j, v)
  {
    JoinCallersCover(u, prev, f, site, u.fns[f].body.blocks[site.0].elems[site.1], j, v);
  }

  /** A pass records that, and nothing is known of parameters no call passes anything for. */
  lemma PassExact(u: Unit, prev: ParamIntervalMap, g: FnId, j: nat)
    requires g in u.tracked && g < |u.fns| && j < |u.fns[g].params|
    ensures var joined := JoinCallers(u, prev, |u.fns|);
            && g in joined && j < |joined[g]|
            && ParamEntryInterval(SeedingPass(u, prev), g, j) == if joined[g][j].Bottom? then I.Top else joined[g][j]
  {
    JoinCallersShape(u, prev, |u.fns|);
    hide JoinCallers;
  }

  // --- Seeds ---

  predicate DistinctParams(params: seq<Decl>) {
    forall i, j :: 0 <= i < j < |params| ==> params[i] != params[j]
  }

  lemma {:induction false} SeedsOfFirstExact(m: ParamIntervalMap, f: FnId, params: seq<Decl>, n: nat, j: nat)
    requires j < |params| && n <= |params| && DistinctParams(params)
    ensures var seeds, entry := SeedsOfFirst(m, f, params, n), ParamEntryInterval(m, f, j);
            && (params[j] in seeds <==> j < n && entry != I.Top && !entry.Bottom?)
            && (params[j] in seeds ==> seeds[params[j]] == entry)
  {
    if n > 0 {
      SeedsOfFirstExact(m, f, params, n - 1, j);
    }
  }

  /** A tracked parameter starts in the interval the previous pass recorded for it. */
  lemma SeededInitial(u: Unit, prev: ParamIntervalMap, f: FnId, j: nat)
    requires f < |u.fns| && j < |u.fns[f].params| && DistinctParams(u.fns[f].params) && u.fns[f].params[j] in u.fns[f].vars
    requires !ParamEntryInterval(prev, f, j).Bottom?
    ensures var x, initial := u.fns[f].params[j], CallerHooks(u, prev, f).initial;
            x in initial && initial[x] == ParamEntryInterval(prev, f, j)
  {
    SeedsOfFirstExact(prev, f, u.fns[f].params, |u.fns[f].params|, j);
  }

  // --- A constant handed down a chain of calls ---

  const IntTy: IntType := IntType(true, 32)
  const P: Decl := Decl(0, IntTy, false)

  function Straight(elems: seq<Stmt>): IA.Flow {
    var blocks: seq<D.Block<Stmt, Expr>> := [
      D.Block([], None, false, false, [], [Some(1)]),
      D.Block(elems, None, false, false, [Some(0)], [Some(2)]),
      D.Block([], None, false, false, [Some(1)], [])];
    D.Cfg(blocks, 0)
  }

  function Passing(callee: FnId, arg: Expr): Stmt {
    Call(callee, [arg], {}, false)
  }

  function Arg(k: FnId, c: nat): Expr {
    if k == 0 then IntLit(c, IntTy) else VarRef(P)
  }

  /** Function 0 calls function 1 with a literal; each other calls the next with its parameter. */
  function Link(n: nat, c: nat, k: FnId): Function {
    Function(if k == 0 then [] else [P], if k == 0 then {} else {P}, Straight(if k < n then [Passing(k + 1, Arg(k, c))] else []))
  }

  function UpTo(n: nat): (r: set<FnId>)
    ensures forall g: nat :: g in r <==> 1 <= g <= n
  {
    if n == 0 then {} else UpTo(n - 1) + {n}
  }

  function Chain(n: nat, c: nat): Unit {
    Unit(seq(n + 1, k requires 0 <= k => Link(n, c, k)), UpTo(n), map[], CountingLoop.Never())
  }

  lemma ChainIs(n: nat, c: nat, k: FnId)
    requires k <= n
    ensures |Chain(n, c).fns| == n + 1 && Chain(n, c).fns[k] == Link(n, c, k)
    ensures forall g: nat :: g in Chain(n, c).tracked <==> 1 <= g <= n
  {
  }

  lemma SitesOfStraight(u: Unit, fn: Function)
    requires |fn.body.blocks| == 3 && fn.body.blocks[0].elems == [] && fn.body.blocks[2].elems == []
    ensures fn.body.blocks[1].elems == [] ==> CallSites(u, fn) == []
    ensures |fn.body.blocks[1].elems| == 1 && IsSite(u, fn, (1, 0)) ==> CallSites(u, fn) == [(1, 0)]
  {
    hide IsSite;
    assert SitesInBlocks(u, fn, 0) == [] && SitesInBlock(u, fn, 0, 0) == [] && SitesInBlock(u, fn, 1, 0) == [];
    assert SitesInBlocks(u, fn, 1) == [] && SitesInBlock(u, fn, 2, 0) == [];
    if |fn.body.blocks[1].elems| == 1 && IsSite(u, fn, (1, 0)) {
      assert SitesInBlock(u, fn, 1, 1) == [(1, 0)];
      assert SitesInBlocks(u, fn, 2) == [(1, 0)];
    } else if fn.body.blocks[1].elems == [] {
      assert SitesInBlocks(u, fn, 2) == [];
    }
  }

  lemma ChainSites(n: nat, c: nat, k: FnId)
    requires k <= n
    ensures k < |Chain(n, c).fns|
    ensures CallSites(Chain(n, c), Chain(n, c).fns[k]) == if k < n then [(1, 0)] else []
    ensures k < n ==> IsSite(Chain(n, c), Chain(n, c).fns[k], (1, 0))
    ensures k < n ==> Chain(n, c).fns[k].body.blocks[1].elems[0] == Passing(k + 1, Arg(k, c))
  {
    ChainIs(n, c, k);
    hide Chain, CallSites;
    SitesOfStraight(Chain(n, c), Chain(n, c).fns[k]);
  }

  /** On a straight body the call is read in the initial state. */
  lemma StraightRecords(elem: Stmt, vars: set<Decl>, seeds: IntervalMap)
    ensures var r := D.Solve(Straight([elem]), IA.Hooks(vars, seeds, map[], CountingLoop.Never())).report;
            (1, 0) in r && r[(1, 0)] == IA.InitialState(vars, seeds)
  {
    var cfg, an := Straight([elem]), IA.Hooks(vars, seeds, map[], CountingLoop.Never());
    EngineExact.EntryVisitedOnce(cfg, an);
    assert D.ExitOf(an, cfg.blocks[0], an.initial) == Some(an.initial);
    hide D.Solve, D.ComputeEntry, Assigned, D.ExitOf;
    EngineExact.FirstRecorded(cfg, an, 1);
    CountingLoop.OnePredecessor(cfg, an, D.Solve(cfg, an).exits, 1, 0);
  }

  /** The constant reaches the first `reach` functions of the chain. */
  function Reached(n: nat, c: nat, reach: nat): ParamIntervalMap
    requires c < 0x8000_0000
  {
    map g | g in UpTo(n) :: [if g <= reach then I.Constant(c as int64) else I.Top]
  }

  ghost predicate ReachesTo(m: ParamIntervalMap, n: nat, c: nat, reach: nat) {
    c < 0x8000_0000 && forall g: FnId :: 1 <= g <= n ==> ParamEntryInterval(m, g, 0) == if g <= reach then I.Constant(c as int64) else I.Top
  }

  lemma ChainInitial(n: nat, c: nat, prev: ParamIntervalMap, reach: nat, k: FnId)
    requires 1 <= k <= n && ReachesTo(prev, n, c, reach) && k < |Chain(n, c).fns|
    ensures CallerHooks(Chain(n, c), prev, k).initial == map[P := if k <= reach then I.Constant(c as int64) else I.Top]
  {
    ChainIs(n, c, k);
    SeededInitial(Chain(n, c), prev, k, 0);
    hide Chain, ParamSeeds;
    assert CallerHooks(Chain(n, c), prev, k).initial.Keys == {P};
  }

  lemma LiteralArg(c: nat, state: IntervalMap)
    requires c < 0x8000_0000
    ensures ArgInterval([IntLit(c, IntTy)], state, 0) == I.Constant(c as int64)
  {
    Pow2Of31();
  }

  lemma Pow2Of31()
    ensures Pow2(31) == 0x8000_0000
  {
    assert Pow2(3) == 8;
    Pow2Sum(3, 4);
    Pow2Sum(7, 7);
    Pow2Sum(14, 3);
    Pow2Sum(14, 17);
  }

  /** What function k passes on when the previous pass reached that far. */
  lemma ChainArg(n: nat, c: nat, prev: ParamIntervalMap, reach: nat, k: FnId)
    requires k < n && ReachesTo(prev, n, c, reach) && k < |Chain(n, c).fns|
    ensures ArgInterval([Arg(k, c)], SiteState(CallerResult(Chain(n, c), prev, k).report, (1, 0)), 0) ==
              if k <= reach then I.Constant(c as int64) else I.Top
  {
    ChainIs(n, c, k);
    if k == 0 {
      LiteralArg(c, SiteState(CallerResult(Chain(n, c), prev, k).report, (1, 0)));
    } else {
      ChainInitial(n, c, prev, reach, k);
      StraightRecords(Passing(k + 1, Arg(k, c)), {P}, ParamSeeds(prev, k, Link(n, c, k)));
      hide Chain, D.Solve, IA.InitialState, ParamSeeds;
    }
  }

  /** The entries after the first k callers have been joined. */
  function JoinedUpTo(n: nat, c: nat, reach: nat, k: nat): ParamIntervalMap
    requires c < 0x8000_0000
  {
    map g | g in UpTo(n) :: [if g > k then I.Bottom else if g <= reach + 1 then I.Constant(c as int64) else I.Top]
  }

  lemma NothingJoined(n: nat, c: nat, reach: nat)
    requires c < 0x8000_0000
    ensures Unreached(Chain(n, c)) == JoinedUpTo(n, c, reach, 0)
  {
    forall g: FnId | g <= n
      ensures g < |Chain(n, c).fns| && (g >= 1 ==> |Chain(n, c).fns[g].params| == 1)
    {
      ChainIs(n, c, g);
    }
    ChainIs(n, c, 0);
    hide Chain;
    NothingPassed(Chain(n, c), n, c, reach);
  }

  lemma NothingPassed(u: Unit, n: nat, c: nat, reach: nat)
    requires c < 0x8000_0000 && |u.fns| == n + 1 && (forall g: nat :: g in u.tracked <==> 1 <= g <= n)
    requires forall g: FnId :: 1 <= g <= n ==> |u.fns[g].params| == 1
    ensures Unreached(u) == JoinedUpTo(n, c, reach, 0)
  {
    var m := JoinedUpTo(n, c, reach, 0);
    forall g: FnId
      ensures g in Unreached(u) <==> g in m
      ensures g in m ==> Unreached(u)[g] == m[g]
    {
      if 1 <= g <= n {
        assert Unreached(u)[g] == [I.Bottom];
      }
    }
  }

  lemma OneSiteApplied(m: ParamIntervalMap, u: Unit, fn: Function, report: Report, site: Site)
    ensures ApplySites(m, u, fn, report, [site]) == ApplySite(m, u, fn, report, site)
  {
    hide ApplySite;
    var none: seq<Site> := [];
    assert [site][1..] == none;
  }

  lemma ChainStep(n: nat, c: nat, prev: ParamIntervalMap, reach: nat, k: FnId)
    requires k < n && c < 0x8000_0000 && ReachesTo(prev, n, c, reach) && k < |Chain(n, c).fns|
    ensures ApplySite(JoinedUpTo(n, c, reach, k), Chain(n, c), Chain(n, c).fns[k], CallerResult(Chain(n, c), prev, k).report, (1, 0)) ==
              JoinedUpTo(n, c, reach, k + 1)
  {
    hide *;
    ChainSites(n, c, k);
    ChainArg(n, c, prev, reach, k);
    StepJoins(n, c, reach, k, Chain(n, c), Chain(n, c).fns[k], CallerResult(Chain(n, c), prev, k).report, Arg(k, c));
  }

  lemma StepJoins(n: nat, c: nat, reach: nat, k: FnId, u: Unit, fn: Function, report: Report, arg: Expr)
    requires k < n && c < 0x8000_0000 && IsSite(u, fn, (1, 0)) && fn.body.blocks[1].elems[0] == Passing(k + 1, arg)
    requires ArgInterval([arg], SiteState(report, (1, 0)), 0) == if k <= reach then I.Constant(c as int64) else I.Top
    ensures ApplySite(JoinedUpTo(n, c, reach, k), u, fn, report, (1, 0)) == JoinedUpTo(n, c, reach, k + 1)
  {
    hide SiteState, ArgInterval, IsSite;
    var m, next := JoinedUpTo(n, c, reach, k), JoinedUpTo(n, c, reach, k + 1);
    var state := SiteState(report, (1, 0));
    assert JoinArgs([I.Bottom], [arg], state) == next[k + 1];
    assert m[k + 1 := next[k + 1]] == next;
  }

  lemma {:induction false} ChainJoined(n: nat, c: nat, prev: ParamIntervalMap, reach: nat, k: nat)
    requires k <= n && ReachesTo(prev, n, c, reach) && |Chain(n, c).fns| == n + 1
    ensures JoinCallers(Chain(n, c), prev, k) == JoinedUpTo(n, c, reach, k)
  {
    hide Chain, CallerResult, CallSites, ApplySites, JoinedUpTo, ApplySite;
    if k == 0 {
      NothingJoined(n, c, reach);
    } else {
      ChainJoined(n, c, prev, reach, k - 1);
      ChainSites(n, c, k - 1);
      OneSiteApplied(JoinCallers(Chain(n, c), prev, k - 1), Chain(n, c), Chain(n, c).fns[k - 1], CallerResult(Chain(n, c), prev, k - 1).report, (1, 0));
      ChainStep(n, c, prev, reach, k - 1);
    }
  }

  /** Every pass carries the constant one call further. */
  lemma ChainPass(n: nat, c: nat, prev: ParamIntervalMap, reach: nat)
    requires c < 0x8000_0000 && ReachesTo(prev, n, c, reach)
    ensures SeedingPass(Chain(n, c), prev) == Reached(n, c, reach + 1)
  {
    hide *;
    ChainIs(n, c, n);
    ChainJoined(n, c, prev, reach, n);
    ChainSites(n, c, n);
    LastCallsNothing(Chain(n, c), prev, n);
    JoinedLifts(n, c, reach);
    PassIs(Chain(n, c), prev);
  }

  lemma PassIs(u: Unit, prev: ParamIntervalMap)
    ensures SeedingPass(u, prev) == LiftUnreached(JoinCallers(u, prev, |u.fns|))
  {
  }

  lemma LastCallsNothing(u: Unit, prev: ParamIntervalMap, n: nat)
    requires |u.fns| == n + 1 && CallSites(u, u.fns[n]) == []
    ensures JoinCallers(u, prev, n + 1) == JoinCallers(u, prev, n)
  {
    hide CallerResult, CallSites;
  }

  lemma JoinedLifts(n: nat, c: nat, reach: nat)
    requires c < 0x8000_0000
    ensures LiftUnreached(JoinedUpTo(n, c, reach, n)) == Reached(n, c, reach + 1)
  {
    var joined, r := JoinedUpTo(n, c, reach, n), Reached(n, c, reach + 1);
    assert LiftUnreached(joined).Keys == r.Keys;
    forall g | g in r
      ensures LiftUnreached(joined)[g] == r[g]
    {
    }
  }

  lemma ReachedReaches(n: nat, c: nat, reach: nat)
    requires c < 0x8000_0000
    ensures ReachesTo(Reached(n, c, reach), n, c, reach)
  {
  }

  lemma ReachedFar(n: nat, c: nat, reach: nat)
    requires c < 0x8000_0000
    ensures Reached(n, c, reach) == Reached(n, c, reach + 1) <==> reach >= n
  {
    if reach < n {
      assert reach + 1 in Reached(n, c, reach);
      assert Reached(n, c, reach)[reach + 1] != Reached(n, c, reach + 1)[reach + 1];
    }
  }

  lemma {:induction false} ChainPasses(n: nat, c: nat, reach: nat, cap: nat)
    requires c < 0x8000_0000
    ensures Passes(Chain(n, c), Reached(n, c, reach), cap) == Reached(n, c, reach + cap)
    decreases cap
  {
    hide Chain, Reached, SeedingPass;
    if cap > 0 {
      ReachedReaches(n, c, reach);
      ChainPass(n, c, Reached(n, c, reach), reach);
      ReachedFar(n, c, reach);
      if reach >= n {
        ReachedStays(n, c, reach, reach + cap);
      } else {
        ChainPasses(n, c, reach + 1, cap - 1);
      }
    }
  }

  lemma ReachedStays(n: nat, c: nat, reach: nat, further: nat)
    requires c < 0x8000_0000 && n <= reach <= further
    ensures Reached(n, c, reach) == Reached(n, c, further)
  {
  }

  /**
   A literal is known exactly three calls down a chain of any length: its interval is the
   constant for the first three functions it is handed to, and unknown further down.
   */
  lemma ChainReachExact(n: nat, c: nat, k: FnId)
    requires 1 <= k <= n && c < 0x8000_0000
    ensures ParamEntryInterval(BuildParamIntervals(Chain(n, c)), k, 0) == if k <= 3 then I.Constant(c as int64) else I.Top
  {
    hide *;
    NothingReaches(n, c);
    ChainPass(n, c, map[], 0);
    FirstReached(n, c, k);
    ChainPasses(n, c, 1, 2);
    ReachedReaches(n, c, 3);
    BuildSteps(Chain(n, c), Reached(n, c, 1));
    AtReach(n, c, k);
  }

  lemma NothingReaches(n: nat, c: nat)
    requires c < 0x8000_0000
    ensures ReachesTo(map[], n, c, 0)
  {
  }

  lemma FirstReached(n: nat, c: nat, k: FnId)
    requires 1 <= k <= n && c < 0x8000_0000
    ensures Reached(n, c, 1) != map[]
  {
    assert k in Reached(n, c, 1);
  }

  lemma BuildSteps(u: Unit, first: ParamIntervalMap)
    requires SeedingPass(u, map[]) == first && first != map[]
    ensures BuildParamIntervals(u) == Passes(u, first, 2)
  {
    hide SeedingPass;
  }

  lemma AtReach(n: nat, c: nat, k: FnId)
    requires 1 <= k <= n && c < 0x8000_0000 && ReachesTo(Reached(n, c, 3), n, c, 3)
    ensures ParamEntryInterval(Reached(n, c, 3), k, 0) == if k <= 3 then I.Constant(c as int64) else I.Top
  {
    hide Reached;
  }
}
