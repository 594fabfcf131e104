/** Entry ranges of parameters across calls: src/engine/ParamIntervals.cpp. */
module ParamIntervals {
  import opened Int64
  import opened Ast
  import opened IntervalEval
  import I = Intervals
  import D = Dataflow
  import DS = DataflowSoundness
  import IA = IntervalAnalysis
  import IntervalDrain

  type FnId = nat

  /** A function body with its integer parameters and all its integer variables. */
  datatype Function = Function(params: seq<Decl>, vars: set<Decl>, body: IA.Flow)

  /**
   A translation unit. tracked are the functions whose every caller is in it: internal
   linkage, address never taken. flags and fatal are what the engine knows besides.
   */
  datatype Unit = Unit(fns: seq<Function>, tracked: set<FnId>, flags: map<Decl, int64>, fatal: Stmt -> bool)

  type ParamIntervalMap = map<FnId, seq<Interval>>
  type Site = (D.BlockId, nat)
  type Report = map<Site, IntervalMap>

  function ParamEntryInterval(m: ParamIntervalMap, f: FnId, j: nat): Interval {
    if f in m && j < |m[f]| then m[f][j] else I.Top
  }

  /** The seeds of the first n parameters; unconstrained ones are left out. */
  function SeedsOfFirst(m: ParamIntervalMap, f: FnId, params: seq<Decl>, n: nat): IntervalMap
    requires n <= |params|
  {
    if n == 0 then map[]
    else
      var seeds, iv := SeedsOfFirst(m, f, params, n - 1), ParamEntryInterval(m, f, n - 1);
      if iv != I.Top && !iv.Bottom? then seeds[params[n - 1] := iv] else seeds
  }

  function ParamSeeds(m: ParamIntervalMap, f: FnId, fn: Function): IntervalMap {
    SeedsOfFirst(m, f, fn.params, |fn.params|)
  }

  // --- Call sites ---

  predicate IsSite(u: Unit, fn: Function, site: Site) {
    && site.0 < |fn.body.blocks| && site.1 < |fn.body.blocks[site.0].elems|
    && var s := fn.body.blocks[site.0].elems[site.1];
       s.Call? && s.callee in u.tracked
  }

  function SitesInBlock(u: Unit, fn: Function, b: D.BlockId, n: nat): seq<Site> {
    if n == 0 then []
    else SitesInBlock(u, fn, b, n - 1) + if IsSite(u, fn, (b, n - 1)) then [(b, n - 1)] else []
  }

  function SitesInBlocks(u: Unit, fn: Function, n: nat): seq<Site>
    requires n <= |fn.body.blocks|
  {
    if n == 0 then []
    else SitesInBlocks(u, fn, n - 1) + SitesInBlock(u, fn, n - 1, |fn.body.blocks[n - 1].elems|)
  }

  /** Calls to tracked functions inside one function body. */
  function CallSites(u: Unit, fn: Function): seq<Site> {
    SitesInBlocks(u, fn, |fn.body.blocks|)
  }

  lemma {:induction false} SitesInBlockExact(u: Unit, fn: Function, b: D.BlockId, n: nat, site: Site)
    ensures site in SitesInBlock(u, fn, b, n) <==> site.0 == b && site.1 < n && IsSite(u, fn, site)
  {
    if n > 0 {
      SitesInBlockExact(u, fn, b, n - 1, site);
    }
  }

  lemma {:induction false} SitesInBlocksExact(u: Unit, fn: Function, n: nat, site: Site)
    requires n <= |fn.body.blocks|
    ensures site in SitesInBlocks(u, fn, n) <==> site.0 < n && IsSite(u, fn, site)
  {
    if n > 0 {
      SitesInBlocksExact(u, fn, n - 1, site);
      SitesInBlockExact(u, fn, n - 1, |fn.body.blocks[n - 1].elems|, site);
    }
  }

  // --- One seeding pass ---

  function ArgInterval(args: seq<Expr>, state: IntervalMap, j: nat): Interval {
    if j < |args| then EvalInterval(args[j], state, false) else I.Top
  }

  function JoinArgs(entry: seq<Interval>, args: seq<Expr>, state: IntervalMap): (r: seq<Interval>) {
    seq(|entry|, j requires 0 <= j < |entry| => I.Join(entry[j], ArgInterval(args, state, j)))
  }

  /** The state a call's arguments are read in: what was recorded before it, or nothing. */
  function SiteState(report: Report, site: Site): IntervalMap {
    if site in report then report[site] else map[]
  }

  function ApplySite(m: ParamIntervalMap, u: Unit, fn: Function, report: Report, site: Site): ParamIntervalMap {
    if !IsSite(u, fn, site) then m
    else
      var call := fn.body.blocks[site.0].elems[site.1];
      if call.callee in m then m[call.callee := JoinArgs(m[call.callee], call.args, SiteState(report, site))] else m
  }

  function ApplySites(m: ParamIntervalMap, u: Unit, fn: Function, report: Report, sites: seq<Site>): ParamIntervalMap {
    if sites == [] then m
    else ApplySites(ApplySite(m, u, fn, report, sites[0]), u, fn, report, sites[1..])
  }

  function CallerHooks(u: Unit, prev: ParamIntervalMap, f: FnId): D.Analysis<IntervalMap, Stmt, Expr>
    requires f < |u.fns|
  {
    IA.Hooks(u.fns[f].vars, ParamSeeds(prev, f, u.fns[f]), u.flags, u.fatal)
  }

  /** The interval analysis of one caller, its own parameters seeded from the previous pass. */
  function CallerResult(u: Unit, prev: ParamIntervalMap, f: FnId): D.Result<IntervalMap>
    requires f < |u.fns|
  {
    D.Solve(u.fns[f].body, CallerHooks(u, prev, f))
  }

  function Unreached(u: Unit): ParamIntervalMap {
    map f | f in u.tracked && f < |u.fns| :: seq(|u.fns[f].params|, (_: nat) => I.Bottom)
  }

  function JoinCallers(u: Unit, prev: ParamIntervalMap, n: nat): ParamIntervalMap
    requires n <= |u.fns|
  {
    if n == 0 then Unreached(u)
    else
      ApplySites(JoinCallers(u, prev, n - 1), u, u.fns[n - 1], CallerResult(u, prev, n - 1).report,
                 CallSites(u, u.fns[n - 1]))
  }

  function LiftBottom(i: Interval): Interval {
    if i.Bottom? then I.Top else i
  }

  /** Entries no call reached become unconstrained. */
  function LiftUnreached(joined: ParamIntervalMap): ParamIntervalMap {
    map f | f in joined :: seq(|joined[f]|, j requires 0 <= j < |joined[f]| => LiftBottom(joined[f][j]))
  }

  function SeedingPass(u: Unit, prev: ParamIntervalMap): ParamIntervalMap {
    LiftUnreached(JoinCallers(u, prev, |u.fns|))
  }

  /** Passes until one changes nothing or the cap is reached. */
  function Passes(u: Unit, m: ParamIntervalMap, cap: nat): ParamIntervalMap
    decreases cap
  {
    if cap == 0 then m
    else
      var next := SeedingPass(u, m);
      if next == m then m else Passes(u, next, cap - 1)
  }

  const MAX_SEEDING_PASSES: nat := 3

  function BuildParamIntervals(u: Unit): ParamIntervalMap {
    Passes(u, map[], MAX_SEEDING_PASSES)
  }

  // --- Call histories ---

  /** An activation: a function and the values its parameters were called with. */
  datatype Frame = Frame(fn: FnId, args: seq<int>)

  ghost predicate EntryStore(fn: Function, args: seq<int>, env: Store) {
    && WellTyped(env) && |args| == |fn.params|
    && forall j :: 0 <= j < |args| ==> fn.params[j] in env && env[fn.params[j]] == args[j]
  }

  ghost function Meaning(u: Unit, f: FnId): DS.Meaning<IntervalMap, Store, Stmt, Expr>
    requires f < |u.fns|
  {
    IA.StoreMeaning(u.fns[f].vars, u.flags, u.fatal)
  }

  /** A run of f from the given arguments gets to the call element in store `at`. */
  ghost predicate ReachesSite(u: Unit, f: Frame, run: seq<(D.BlockId, Store)>, site: Site, at: Store)
    requires f.fn < |u.fns|
  {
    var fn, m := u.fns[f.fn], Meaning(u, f.fn);
    && DS.IsRun(fn.body, m, IA.InitialState(fn.vars, map[]), run)
    && EntryStore(fn, f.args, run[0].1)
    && run[|run| - 1].0 == site.0 && IsSite(u, fn, site)
    && DS.Executes(m, fn.body.blocks[site.0].elems[..site.1], run[|run| - 1].1, at)
    && !u.fatal(fn.body.blocks[site.0].elems[site.1])
  }

  /** f calls g there: covered parameters get the values of the arguments, others any value. */
  ghost predicate CallsAt(u: Unit, f: Frame, g: Frame, run: seq<(D.BlockId, Store)>, site: Site, at: Store) {
    && f.fn < |u.fns| && g.fn < |u.fns| && |g.args| == |u.fns[g.fn].params|
    && ReachesSite(u, f, run, site, at)
    && var call := u.fns[f.fn].body.blocks[site.0].elems[site.1];
       && call.callee == g.fn
       && forall j :: 0 <= j < |g.args| && j < |call.args| ==>
            SignedLiterals(call.args[j]) && Evals(call.args[j], at, g.args[j])
  }

  ghost predicate Calls(u: Unit, f: Frame, g: Frame) {
    exists run, site, at :: CallsAt(u, f, g, run, site, at)
  }

  /**
   A chain of calls: the first frame is entered from outside, every next one is called by the
   frame before it. Every call of any execution, recursive or not, ends such a chain.
   */
  ghost predicate IsHistory(u: Unit, history: seq<Frame>) {
    if |history| <= 1 then history != [] && history[0].fn !in u.tracked
    else
      var n := |history| - 1;
      IsHistory(u, history[..n]) && Calls(u, history[n - 1], history[n])
  }

  ghost predicate Within(m: ParamIntervalMap, f: Frame) {
    forall j :: 0 <= j < |f.args| ==> ParamEntryInterval(m, f.fn, j).Contains(f.args[j])
  }

  /** Every call of every history passes arguments inside the recorded intervals. */
  ghost predicate SoundMap(u: Unit, m: ParamIntervalMap) {
    && m.Keys <= u.tracked
    && forall history :: IsHistory(u, history) ==> Within(m, history[|history| - 1])
  }

  /** In the pass that starts from prev, the dataflow of every function with a call to a tracked one converged. */
  predicate PassConverges(u: Unit, prev: ParamIntervalMap) {
    forall f: FnId :: f < |u.fns| && CallSites(u, u.fns[f]) != [] ==> CallerResult(u, prev, f).converged
  }

  // --- Soundness of one pass ---

  lemma {:induction false} SeedsSound(m: ParamIntervalMap, f: FnId, params: seq<Decl>, n: nat, args: seq<int>, env: Store, d: Decl)
    requires n <= |params| == |args| && d in SeedsOfFirst(m, f, params, n)
    requires forall j :: 0 <= j < n ==> params[j] in env && env[params[j]] == args[j]
    requires forall j :: 0 <= j < n ==> ParamEntryInterval(m, f, j).Contains(args[j])
    ensures d in env && SeedsOfFirst(m, f, params, n)[d].Contains(env[d])
  {
    if n > 0 {
      var iv := ParamEntryInterval(m, f, n - 1);
      if !(d == params[n - 1] && iv != I.Top && !iv.Bottom?) {
        SeedsSound(m, f, params, n - 1, args, env, d);
      }
    }
  }

  /** With the frame's arguments inside prev, its run is one the seeded analysis speaks about. */
  lemma SeededRun(u: Unit, prev: ParamIntervalMap, f: Frame, run: seq<(D.BlockId, Store)>, site: Site, at: Store)
    requires f.fn < |u.fns| && ReachesSite(u, f, run, site, at) && Within(prev, f)
    ensures DS.IsRun(u.fns[f.fn].body, Meaning(u, f.fn), CallerHooks(u, prev, f.fn).initial, run)
  {
    var fn := u.fns[f.fn];
    var env, seeds := run[0].1, ParamSeeds(prev, f.fn, fn);
    forall d | d in fn.vars && d in env
      ensures IA.InitialState(fn.vars, seeds)[d].Contains(env[d])
    {
      if d in seeds {
        SeedsSound(prev, f.fn, fn.params, |fn.params|, f.args, env, d);
      }
    }
  }

  /** What the analysis recorded at a reached call contains the value of every argument. */
  lemma ArgumentsCovered(u: Unit, prev: ParamIntervalMap, f: Frame, g: Frame, run: seq<(D.BlockId, Store)>, site: Site, at: Store, j: nat)
    requires PassConverges(u, prev) && CallsAt(u, f, g, run, site, at) && Within(prev, f) && j < |g.args|
    ensures var call := u.fns[f.fn].body.blocks[site.0].elems[site.1];
            ArgInterval(call.args, SiteState(CallerResult(u, prev, f.fn).report, site), j).Contains(g.args[j])
  {
    var fn := u.fns[f.fn];
    var call := fn.body.blocks[site.0].elems[site.1];
    var state := SiteState(CallerResult(u, prev, f.fn).report, site);
    SeededRun(u, prev, f, run, site, at);
    SiteListed(u, f.fn, site);
    assert Describes(state, at) by {
      forall d | d in state && d in at
        ensures state[d].Contains(at[d])
      {
        IA.RecordedIntervalsContainValues(
          fn.body, fn.vars, ParamSeeds(prev, f.fn, fn), u.flags, u.fatal, run, |run| - 1, site.1, at, d);
      }
    }
    if j < |call.args| {
      EvalIntervalSound(call.args[j], state, false, at, g.args[j]);
    }
  }

  /** m' has the same shape as m and no interval is smaller. */
  ghost predicate Grows(m: ParamIntervalMap, m': ParamIntervalMap) {
    && m'.Keys == m.Keys
    && forall f :: f in m ==> |m'[f]| == |m[f]| && forall j :: 0 <= j < |m[f]| ==> I.Subset(m[f][j], m'[f][j])
  }

  lemma ApplySiteGrows(m: ParamIntervalMap, u: Unit, fn: Function, report: Report, site: Site)
    ensures Grows(m, ApplySite(m, u, fn, report, site))
    ensures IsSite(u, fn, site) ==>
              var call := fn.body.blocks[site.0].elems[site.1];
              call.callee in m ==> forall j :: 0 <= j < |m[call.callee]| ==>
                I.Subset(ArgInterval(call.args, SiteState(report, site), j), ApplySite(m, u, fn, report, site)[call.callee][j])
  {
    if IsSite(u, fn, site) {
      var call := fn.body.blocks[site.0].elems[site.1];
      if call.callee in m {
        var entry, state := m[call.callee], SiteState(report, site);
        forall j | 0 <= j < |entry|
          ensures I.Subset(entry[j], JoinArgs(entry, call.args, state)[j])
          ensures I.Subset(ArgInterval(call.args, state, j), JoinArgs(entry, call.args, state)[j])
        {
          I.JoinIsLeast(entry[j], ArgInterval(call.args, state, j));
        }
      }
    }
  }

  lemma GrowsTrans(a: ParamIntervalMap, b: ParamIntervalMap, c: ParamIntervalMap)
    requires Grows(a, b) && Grows(b, c)
    ensures Grows(a, c)
  {
    forall f, j | f in a && 0 <= j < |a[f]|
      ensures I.Subset(a[f][j], c[f][j])
    {
      assert I.Subset(a[f][j], b[f][j]) && I.Subset(b[f][j], c[f][j]);
    }
  }

  lemma {:induction false} ApplySitesGrows(m: ParamIntervalMap, u: Unit, fn: Function, report: Report, sites: seq<Site>)
    ensures Grows(m, ApplySites(m, u, fn, report, sites))
    decreases |sites|
  {
    if sites != [] {
      var next := ApplySite(m, u, fn, report, sites[0]);
      ApplySiteGrows(m, u, fn, report, sites[0]);
      ApplySitesGrows(next, u, fn, report, sites[1..]);
      GrowsTrans(m, next, ApplySites(next, u, fn, report, sites[1..]));
    }
  }

  /** Every listed site's argument interval is included in the callee's entry interval. */
  lemma {:induction false} ApplySitesCover(
    m: ParamIntervalMap, u: Unit, fn: Function, report: Report, sites: seq<Site>, site: Site, j: nat, v: int)
    requires site in sites && IsSite(u, fn, site)
    requires var call := fn.body.blocks[site.0].elems[site.1];
             call.callee in m && j < |m[call.callee]| && ArgInterval(call.args, SiteState(report, site), j).Contains(v)
    ensures var g, r := fn.body.blocks[site.0].elems[site.1].callee, ApplySites(m, u, fn, report, sites);
            g in r && j < |r[g]| && r[g][j].Contains(v)
    decreases |sites|
  {
    var next := ApplySite(m, u, fn, report, sites[0]);
    var g := fn.body.blocks[site.0].elems[site.1].callee;
    ApplySiteGrows(m, u, fn, report, sites[0]);
    if sites[0] == site {
      var joined: Interval := next[g][j];
      assert joined.Contains(v);
      ApplySitesGrows(next, u, fn, report, sites[1..]);
      assert I.Subset(next[g][j], ApplySites(next, u, fn, report, sites[1..])[g][j]);
    } else {
      ApplySitesCover(next, u, fn, report, sites[1..], site, j, v);
    }
  }

  predicate Shaped(u: Unit, m: ParamIntervalMap) {
    m.Keys == Unreached(u).Keys && forall f :: f in m ==> |m[f]| == |u.fns[f].params|
  }

  lemma GrowsKeepsShape(u: Unit, m: ParamIntervalMap, m': ParamIntervalMap)
    requires Shaped(u, m) && Grows(m, m')
    ensures Shaped(u, m')
  {
  }

  lemma UnreachedShaped(u: Unit)
    ensures Shaped(u, Unreached(u))
  {
  }

  lemma {:induction false} JoinCallersShape(u: Unit, prev: ParamIntervalMap, n: nat)
    requires n <= |u.fns|
    ensures Shaped(u, JoinCallers(u, prev, n))
  {
    hide ApplySites, CallerResult, CallSites, Grows, Shaped, Unreached;
    if n == 0 {
      UnreachedShaped(u);
    } else {
      JoinCallersShape(u, prev, n - 1);
      CallerGrows(u, prev, n - 1);
      GrowsKeepsShape(u, JoinCallers(u, prev, n - 1), JoinCallers(u, prev, n));
    }
  }

  lemma CallerGrows(u: Unit, prev: ParamIntervalMap, n: nat)
    requires n < |u.fns|
    ensures Grows(JoinCallers(u, prev, n), JoinCallers(u, prev, n + 1))
  {
    hide ApplySites, CallerResult, CallSites, Grows;
    ApplySitesGrows(JoinCallers(u, prev, n), u, u.fns[n], CallerResult(u, prev, n).report, CallSites(u, u.fns[n]));
  }

  lemma GrowsSelf(m: ParamIntervalMap)
    ensures Grows(m, m)
  {
  }

  lemma {:induction false} JoinCallersGrows(u: Unit, prev: ParamIntervalMap, k: nat, n: nat)
    requires k <= n <= |u.fns|
    ensures Grows(JoinCallers(u, prev, k), JoinCallers(u, prev, n))
    decreases n
  {
    hide JoinCallers, Grows;
    if k < n {
      JoinCallersGrows(u, prev, k, n - 1);
      CallerGrows(u, prev, n - 1);
      GrowsTrans(JoinCallers(u, prev, k), JoinCallers(u, prev, n - 1), JoinCallers(u, prev, n));
    } else {
      GrowsSelf(JoinCallers(u, prev, n));
    }
  }

  ghost predicate EntryContains(m: ParamIntervalMap, g: FnId, j: nat, v: int) {
    g in m && j < |m[g]| && m[g][j].Contains(v)
  }

  lemma GrowsContains(m: ParamIntervalMap, m': ParamIntervalMap, g: FnId, j: nat, v: int)
    requires Grows(m, m') && EntryContains(m, g, j, v)
    ensures EntryContains(m', g, j, v)
  {
    assert I.Subset(m[g][j], m'[g][j]);
  }

  lemma CallerCovers(u: Unit, prev: ParamIntervalMap, f: FnId, site: Site, call: Stmt, j: nat, v: int)
    requires f < |u.fns| && IsSite(u, u.fns[f], site) && call == u.fns[f].body.blocks[site.0].elems[site.1]
    requires call.callee < |u.fns| && j < |u.fns[call.callee].params|
    requires ArgInterval(call.args, SiteState(CallerResult(u, prev, f).report, site), j).Contains(v)
    ensures EntryContains(JoinCallers(u, prev, f + 1), call.callee, j, v)
  {
    JoinCallersShape(u, prev, f);
    hide ApplySites, CallerResult, CallSites, ArgInterval, SiteState;
    SiteListed(u, f, site);
    ApplySitesCover(JoinCallers(u, prev, f), u, u.fns[f], CallerResult(u, prev, f).report,
                    CallSites(u, u.fns[f]), site, j, v);
  }

  /** The joined entry of a callee contains what any recorded call passes to it. */
  lemma JoinCallersCover(u: Unit, prev: ParamIntervalMap, f: FnId, site: Site, call: Stmt, j: nat, v: int)
    requires f < |u.fns| && IsSite(u, u.fns[f], site) && call == u.fns[f].body.blocks[site.0].elems[site.1]
    requires call.callee < |u.fns| && j < |u.fns[call.callee].params|
    requires ArgInterval(call.args, SiteState(CallerResult(u, prev, f).report, site), j).Contains(v)
    ensures EntryContains(JoinCallers(u, prev, |u.fns|), call.callee, j, v)
  {
    hide JoinCallers, CallerResult, Grows, EntryContains;
    CallerCovers(u, prev, f, site, call, j, v);
    JoinCallersGrows(u, prev, f + 1, |u.fns|);
    GrowsContains(JoinCallers(u, prev, f + 1), JoinCallers(u, prev, |u.fns|), call.callee, j, v);
  }

  lemma SiteListed(u: Unit, f: FnId, site: Site)
    requires f < |u.fns| && IsSite(u, u.fns[f], site)
    ensures site in CallSites(u, u.fns[f])
  {
    SitesInBlocksExact(u, u.fns[f], |u.fns[f].body.blocks|, site);
  }

  lemma CallPassesWithin(u: Unit, prev: ParamIntervalMap, f: Frame, g: Frame, run: seq<(D.BlockId, Store)>, site: Site, at: Store)
    requires PassConverges(u, prev) && CallsAt(u, f, g, run, site, at) && Within(prev, f)
    ensures Within(SeedingPass(u, prev), g)
  {
    hide JoinCallers, CallerResult, ReachesSite, PassConverges;
    forall j | 0 <= j < |g.args|
      ensures ParamEntryInterval(SeedingPass(u, prev), g.fn, j).Contains(g.args[j])
    {
      ArgumentsCovered(u, prev, f, g, run, site, at, j);
      SiteOfCall(u, f, g, run, site, at);
      JoinCallersCover(u, prev, f.fn, site, u.fns[f.fn].body.blocks[site.0].elems[site.1], j, g.args[j]);
    }
  }

  lemma SiteOfCall(u: Unit, f: Frame, g: Frame, run: seq<(D.BlockId, Store)>, site: Site, at: Store)
    requires CallsAt(u, f, g, run, site, at)
    ensures f.fn < |u.fns| && IsSite(u, u.fns[f.fn], site)
    ensures u.fns[f.fn].body.blocks[site.0].elems[site.1].callee == g.fn
  {
  }

  /** One pass keeps soundness: from a sound map it computes a sound map. */
  lemma SeedingPassSound(u: Unit, prev: ParamIntervalMap)
    requires PassConverges(u, prev) && SoundMap(u, prev)
    ensures SoundMap(u, SeedingPass(u, prev))
  {
    PassKeys(u, prev);
    hide SeedingPass, PassConverges, CallsAt, Within;
    var next := SeedingPass(u, prev);
    forall history | IsHistory(u, history)
      ensures Within(next, history[|history| - 1])
    {
      var n := |history| - 1;
      if n == 0 {
        UntrackedWithin(u, next, history[0]);
      } else {
        assert history[..n][n - 1] == history[n - 1];
        var run, site, at :| CallsAt(u, history[n - 1], history[n], run, site, at);
        CallPassesWithin(u, prev, history[n - 1], history[n], run, site, at);
      }
    }
  }

  lemma UntrackedWithin(u: Unit, m: ParamIntervalMap, f: Frame)
    requires m.Keys <= u.tracked && f.fn !in u.tracked
    ensures Within(m, f)
  {
  }

  lemma PassKeys(u: Unit, prev: ParamIntervalMap)
    ensures SeedingPass(u, prev).Keys <= u.tracked
  {
    JoinCallersShape(u, prev, |u.fns|);
  }

  // --- Any number of passes ---

  /** Every pass that is run converges in every caller. */
  ghost predicate PassesConverge(u: Unit, m: ParamIntervalMap, cap: nat)
    decreases cap
  {
    cap > 0 ==> PassConverges(u, m) && (SeedingPass(u, m) != m ==> PassesConverge(u, SeedingPass(u, m), cap - 1))
  }

  /**
   After any number of passes, on any call history, recursion and cycles included, every call
   to a tracked function passes arguments inside its recorded intervals. The cap decides only
   how narrow they are.
   */
  lemma {:induction false} PassesSound(u: Unit, m: ParamIntervalMap, cap: nat)
    requires SoundMap(u, m) && PassesConverge(u, m, cap)
    ensures SoundMap(u, Passes(u, m, cap))
    decreases cap
  {
    hide SeedingPass, SoundMap;
    if cap > 0 {
      SeedingPassSound(u, m);
      if SeedingPass(u, m) != m {
        PassesSound(u, SeedingPass(u, m), cap - 1);
      }
    }
  }

  lemma BuildParamIntervalsSound(u: Unit, history: seq<Frame>, j: nat)
    requires PassesConverge(u, map[], MAX_SEEDING_PASSES) && IsHistory(u, history)
    requires history != [] && j < |history[|history| - 1].args|
    ensures var last := history[|history| - 1];
            ParamEntryInterval(BuildParamIntervals(u), last.fn, j).Contains(last.args[j])
  {
    hide IsHistory, Passes, PassesConverge;
    assert SoundMap(u, map[]);
    PassesSound(u, map[], MAX_SEEDING_PASSES);
    assert Within(BuildParamIntervals(u), history[|history| - 1]);
  }

  // --- Units on which every pass converges ---

  /** Every function that calls a tracked one is small enough for the iteration cap. */
  predicate SmallCallers(u: Unit) {
    forall f: FnId :: f < |u.fns| && CallSites(u, u.fns[f]) != [] ==>
      IntervalDrain.CapSuffices(u.fns[f].body, u.fns[f].vars)
  }

  lemma SmallCallersConverge(u: Unit, prev: ParamIntervalMap)
    requires SmallCallers(u)
    ensures PassConverges(u, prev)
  {
    hide CallSites, IntervalDrain.CapSuffices;
    forall f: FnId | f < |u.fns| && CallSites(u, u.fns[f]) != []
      ensures CallerResult(u, prev, f).converged
    {
      IntervalDrain.SmallConverges(u.fns[f].body, u.fns[f].vars, ParamSeeds(prev, f, u.fns[f]), u.flags, u.fatal);
    }
  }

  lemma {:induction false} SmallCallersAlwaysConverge(u: Unit, m: ParamIntervalMap, cap: nat)
    requires SmallCallers(u)
    ensures PassesConverge(u, m, cap)
    decreases cap
  {
    hide SmallCallers, PassConverges, SeedingPass;
    if cap > 0 {
      SmallCallersConverge(u, m);
      SmallCallersAlwaysConverge(u, SeedingPass(u, m), cap - 1);
    }
  }

  /** Whatever the passes compute on such units, every call of every history stays inside the recorded intervals. */
  lemma BuildSoundWhenSmall(u: Unit)
    requires SmallCallers(u)
    ensures SoundMap(u, BuildParamIntervals(u))
  {
    SmallCallersAlwaysConverge(u, map[], MAX_SEEDING_PASSES);
    assert SoundMap(u, map[]);
    hide SmallCallers, Passes, PassesConverge, SoundMap;
    PassesSound(u, map[], MAX_SEEDING_PASSES);
  }
}
