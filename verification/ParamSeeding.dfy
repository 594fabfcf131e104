/** The loops of src/engine/ParamIntervals.cpp, which join into the interval map in place. */
module ParamSeeding {
  import opened Int64
  import opened Ast
  import opened IntervalEval
  import opened ParamIntervals
  import I = Intervals
  import D = Dataflow
  import Engine = DataflowEngine

  /** The calls to tracked functions, in block and element order. */
  method CallsToCandidates(u: Unit, fn: Function) returns (sites: seq<Site>)
    ensures sites == CallSites(u, fn)
  {
    sites := [];
    for b := 0 to |fn.body.blocks|
      invariant sites == SitesInBlocks(u, fn, b)
    {
      var before := sites;
      for i := 0 to |fn.body.blocks[b].elems|
        invariant sites == before + SitesInBlock(u, fn, b, i)
      {
        if IsSite(u, fn, (b, i)) {
          sites := sites + [(b, i)];
        }
      }
    }
  }

  class Seeding {
    const u: Unit
    var entries: ParamIntervalMap

    constructor (u: Unit)
      ensures this.u == u && entries == map[]
    {
      this.u := u;
      this.entries := map[];
    }

    /** Joins one call's arguments into the entry of its callee. */
    method JoinCall(fn: Function, report: Report, site: Site)
      modifies this`entries
      ensures entries == ApplySite(old(entries), u, fn, report, site)
    {
      if !IsSite(u, fn, site) {
        return;
      }
      var call := fn.body.blocks[site.0].elems[site.1];
      if call.callee !in entries {
        return;
      }
      ghost var was := entries;
      var state := SiteState(report, site);
      var entry := entries[call.callee];
      for j := 0 to |entry|
        invariant |entry| == |was[call.callee]|
        invariant forall k :: 0 <= k < |entry| ==>
          entry[k] == if k < j then I.Join(was[call.callee][k], ArgInterval(call.args, state, k)) else was[call.callee][k]
      {
        var arg := if j < |call.args| then EvalInterval(call.args[j], state, false) else I.Top;
        entry := entry[j := I.Join(entry[j], arg)];
      }
      assert entry == JoinArgs(was[call.callee], call.args, state);
      entries := entries[call.callee := entry];
    }

    /** One caller: its calls read the states its own seeded analysis recorded. */
    method JoinCaller(prev: ParamIntervalMap, f: FnId)
      requires f < |u.fns|
      modifies this`entries
      ensures entries == ApplySites(old(entries), u, u.fns[f], CallerResult(u, prev, f).report, CallSites(u, u.fns[f]))
    {
      var fn := u.fns[f];
      var sites := CallsToCandidates(u, fn);
      if sites == [] {
        return;
      }
      var result := Engine.RunDataflow(fn.body, CallerHooks(u, prev, f));
      ghost var want := ApplySites(entries, u, fn, result.report, sites);
      for k := 0 to |sites|
        invariant ApplySites(entries, u, fn, result.report, sites[k..]) == want
      {
        assert sites[k..][0] == sites[k] && sites[k..][1..] == sites[k + 1..];
        JoinCall(fn, result.report, sites[k]);
      }
    }

    method LiftEntries()
      modifies this`entries
      ensures entries == LiftUnreached(old(entries))
    {
      ghost var was := entries;
      var todo := entries.Keys;
      while todo != {}
        invariant todo <= was.Keys == entries.Keys
        invariant forall f :: f in was ==> |entries[f]| == |was[f]|
        invariant forall f, j :: f in was && 0 <= j < |was[f]| ==>
          entries[f][j] == if f in todo then was[f][j] else LiftBottom(was[f][j])
        decreases |todo|
      {
        var f :| f in todo;
        todo := todo - {f};
        var entry := entries[f];
        for j := 0 to |entry|
          invariant |entry| == |was[f]|
          invariant forall k :: 0 <= k < |entry| ==> entry[k] == if k < j then LiftBottom(was[f][k]) else was[f][k]
        {
          if entry[j].Bottom? {
            entry := entry[j := I.Top];
          }
        }
        entries := entries[f := entry];
      }
      forall f | f in was
        ensures entries[f] == LiftUnreached(was)[f]
      {
        assert |entries[f]| == |LiftUnreached(was)[f]|;
      }
      assert entries == LiftUnreached(was);
    }

    /** runSeedingPass. */
    method RunPass(prev: ParamIntervalMap)
      modifies this`entries
      ensures entries == SeedingPass(u, prev)
    {
      hide ApplySites, CallerResult, CallSites, LiftUnreached, Unreached;
      entries := Unreached(u);
      for f := 0 to |u.fns|
        invariant entries == JoinCallers(u, prev, f)
      {
        JoinCaller(prev, f);
      }
      LiftEntries();
    }

    /** buildParamIntervals. */
    method Build()
      modifies this`entries
      ensures entries == BuildParamIntervals(u)
    {
      hide SeedingPass;
      entries := map[];
      for pass := 0 to MAX_SEEDING_PASSES
        invariant Passes(u, entries, MAX_SEEDING_PASSES - pass) == BuildParamIntervals(u)
      {
        var before := entries;
        RunPass(before);
        if entries == before {
          return;
        }
      }
    }
  }
}
