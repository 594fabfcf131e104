/** The fixpoint loops of computeAliases, proved to reach the least closures. */
module AliasClosure {
  import opened Aliases
  import opened FiniteSets

  lemma TargetsHave(edges: seq<Edge>, e: Edge)
    requires e in edges
    ensures e.to in Targets(edges)
  {
  }

  /** A closed set inside every closed set is the taint closure. */
  lemma LeastTainted(c: Collected, t: set<LocalId>)
    requires TaintClosed(c, t) && t <= Tainted(c)
    ensures t == Tainted(c)
  {
  }

  lemma LeastReached(c: Collected, t: set<LocalId>, p: ParamId, r: set<LocalId>)
    requires ReachClosed(c, t, p, r) && r <= Reached(c, t, p)
    ensures r == Reached(c, t, p)
  {
  }

  method PropagateTaint(c: Collected) returns (tainted: set<LocalId>)
    ensures tainted == Tainted(c)
  {
    TaintedClosed(c);
    tainted := c.dirty;
    var changed := true;
    ghost var bound := c.dirty + Targets(c.edges);
    while changed
      invariant c.dirty <= tainted <= Tainted(c) && tainted <= bound
      invariant !changed ==> TaintClosed(c, tainted)
      decreases |bound - tainted|, changed
    {
      changed := false;
      ghost var before := tainted;
      for i := 0 to |c.edges|
        invariant before <= tainted <= Tainted(c) && tainted <= bound
        invariant changed ==> before < tainted
        invariant !changed ==> tainted == before && forall j :: 0 <= j < i ==> PassesTaint(c.edges[j], tainted)
      {
        var e := c.edges[i];
        TargetsHave(c.edges, e);
        if e.from.Local? && e.from.l in tainted && e.to !in tainted {
          tainted := tainted + {e.to};
          changed := true;
        }
      }
      if changed {
        Shrinks(bound, before, tainted);
      }
      assert !changed ==> forall e :: e in c.edges ==> PassesTaint(e, tainted);
    }
    LeastTainted(c, tainted);
  }

  predicate PassesTaint(e: Edge, t: set<LocalId>) {
    e.from.Local? && e.from.l in t ==> e.to in t
  }

  // --- One parameter's breadth-first search ---

  /** The variables of the search: locals seen, the clean ones among them, and the next frontier. */
  datatype Walk = Walk(visited: set<LocalId>, reached: set<LocalId>, spills: bool, next: set<Var>)

  predicate IsSource(p: ParamId, reached: set<LocalId>, v: Var) {
    match v case Param(q) => q == p case Local(l) => l in reached
  }

  /** What is seen is right, and every source found is expanded, in the frontier or in the next one. */
  ghost predicate Searching(c: Collected, p: ParamId, done: set<Var>, frontier: set<Var>, w: Walk) {
    && w.visited <= Targets(c.edges)
    && (forall x :: x in w.reached <==> x in w.visited && x !in Tainted(c))
    && (forall x :: x in w.reached ==> Feeds(c, p, x))
    && (w.spills <==> exists x :: x in w.visited && x in Tainted(c))
    && (w.spills ==> SpillsIntoTainted(c, p))
    && (forall v :: v in done || v in frontier || v in w.next <==> IsSource(p, w.reached, v))
    && (forall e :: e in c.edges && e.from in done ==> e.to in w.visited)
  }

  function Follow(tainted: set<LocalId>, frontier: set<Var>, w: Walk, e: Edge): Walk {
    if e.from !in frontier || e.to in w.visited then w
    else if e.to in tainted then w.(visited := w.visited + {e.to}, spills := true)
    else w.(visited := w.visited + {e.to}, reached := w.reached + {e.to}, next := w.next + {Local(e.to)})
  }

  lemma EdgeFeeds(c: Collected, p: ParamId, reached: set<LocalId>, e: Edge)
    requires e in c.edges && IsSource(p, reached, e.from) && forall x :: x in reached ==> Feeds(c, p, x)
    ensures e.to in Targets(c.edges)
    ensures if e.to in Tainted(c) then SpillsIntoTainted(c, p) else Feeds(c, p, e.to)
  {
    hide Reached, Tainted;
    ReachedClosed(c, Tainted(c), p);
    TargetsHave(c.edges, e);
    assert Flows(e, p, Reached(c, Tainted(c), p));
  }

  lemma FollowKeeps(c: Collected, p: ParamId, done: set<Var>, frontier: set<Var>, w: Walk, e: Edge)
    requires Searching(c, p, done, frontier, w) && e in c.edges
    ensures var r := Follow(Tainted(c), frontier, w, e);
            && Searching(c, p, done, frontier, r)
            && (e.from in frontier ==> e.to in r.visited)
            && w.visited <= r.visited
            && (r.next != w.next ==> w.visited < r.visited)
  {
    hide Feeds, Tainted, Targets, SpillsIntoTainted;
    if e.from in frontier && e.to !in w.visited {
      EdgeFeeds(c, p, w.reached, e);
    }
  }

  /** All edges out of the frontier. */
  method ExpandFrontier(c: Collected, tainted: set<LocalId>, p: ParamId, ghost done: set<Var>, frontier: set<Var>, w: Walk)
    returns (r: Walk)
    requires tainted == Tainted(c) && Searching(c, p, done, frontier, w) && w.next == {}
    ensures Searching(c, p, done, frontier, r)
    ensures forall e :: e in c.edges && e.from in frontier ==> e.to in r.visited
    ensures w.visited <= r.visited && (r.next != {} ==> w.visited < r.visited)
  {
    hide Searching, Tainted, Follow;
    r := w;
    for i := 0 to |c.edges|
      invariant Searching(c, p, done, frontier, r)
      invariant forall j :: 0 <= j < i && c.edges[j].from in frontier ==> c.edges[j].to in r.visited
      invariant w.visited <= r.visited && (r.next != {} ==> w.visited < r.visited)
    {
      FollowKeeps(c, p, done, frontier, r, c.edges[i]);
      r := Follow(tainted, frontier, r, c.edges[i]);
    }
  }

  lemma SearchStarts(c: Collected, p: ParamId)
    ensures Searching(c, p, {}, {Param(p)}, Walk({}, {}, false, {}))
  {
    hide Feeds, Tainted, SpillsIntoTainted;
  }

  lemma FrontierDone(c: Collected, p: ParamId, done: set<Var>, frontier: set<Var>, w: Walk)
    requires Searching(c, p, done, frontier, w)
    requires forall e :: e in c.edges && e.from in frontier ==> e.to in w.visited
    ensures Searching(c, p, done + frontier, w.next, w.(next := {}))
  {
    hide Feeds, Tainted, Targets, SpillsIntoTainted;
  }

  /** With nothing left to expand, the search has found exactly what p reaches. */
  lemma SearchEnds(c: Collected, p: ParamId, done: set<Var>, w: Walk)
    requires Searching(c, p, done, {}, w) && w.next == {}
    ensures w.reached == Reached(c, Tainted(c), p) && w.spills == SpillsIntoTainted(c, p)
  {
    hide Tainted, Targets;
    assert ReachClosed(c, Tainted(c), p, w.reached) by {
      forall e | e in c.edges && Flows(e, p, w.reached) && e.to !in Tainted(c)
        ensures e.to in w.reached
      {
        assert IsSource(p, w.reached, e.from);
      }
    }
    LeastReached(c, Tainted(c), p, w.reached);
    if SpillsIntoTainted(c, p) {
      var e :| e in c.edges && Flows(e, p, Reached(c, Tainted(c), p)) && e.to in Tainted(c);
      assert IsSource(p, w.reached, e.from);
    }
  }

  /** The locals reached by p, and whether it reached a tainted one. */
  method Search(c: Collected, tainted: set<LocalId>, p: ParamId) returns (reached: set<LocalId>, spills: bool)
    requires tainted == Tainted(c)
    ensures reached == Reached(c, Tainted(c), p) && spills == SpillsIntoTainted(c, p)
  {
    hide Searching, Tainted, SpillsIntoTainted, Reached, Targets;
    var frontier, w := {Param(p)}, Walk({}, {}, false, {});
    ghost var done: set<Var> := {};
    SearchStarts(c, p);
    while frontier != {}
      invariant Searching(c, p, done, frontier, w) && w.next == {}
      decreases |Targets(c.edges) - w.visited|, |frontier|
    {
      var r := ExpandFrontier(c, tainted, p, done, frontier, w);
      FrontierDone(c, p, done, frontier, r);
      VisitedBounded(c, p, done, frontier, r);
      if w.visited < r.visited {
        Shrinks(Targets(c.edges), w.visited, r.visited);
      } else {
        assert w.visited == r.visited;
      }
      done, frontier, w := done + frontier, r.next, r.(next := {});
    }
    SearchEnds(c, p, done, w);
    return w.reached, w.spills;
  }

  lemma VisitedBounded(c: Collected, p: ParamId, done: set<Var>, frontier: set<Var>, w: Walk)
    requires Searching(c, p, done, frontier, w)
    ensures w.visited <= Targets(c.edges)
  {
  }

  // --- The whole computation ---

  type Origins = map<LocalId, set<ParamId>>

  function OriginsAt(origins: Origins, l: LocalId): set<ParamId> {
    if l in origins then origins[l] else {}
  }

  /** For every local, the parameters of ps that feed it; locals none feeds have no entry. */
  ghost predicate OriginsOf(c: Collected, ps: set<ParamId>, origins: Origins) {
    && (forall l, p :: p in OriginsAt(origins, l) <==> p in ps && Feeds(c, p, l))
    && (forall l :: l in origins ==> origins[l] != {})
  }

  ghost predicate Adds(origins: Origins, reached: set<LocalId>, p: ParamId, r: Origins) {
    && (forall l :: l in reached ==> l in r && r[l] == OriginsAt(origins, l) + {p})
    && (forall l :: l !in reached ==> (l in r <==> l in origins) && OriginsAt(r, l) == OriginsAt(origins, l))
  }

  method AddOrigin(origins: Origins, reached: set<LocalId>, p: ParamId) returns (r: Origins)
    ensures Adds(origins, reached, p, r)
  {
    r := origins;
    var todo := reached;
    while todo != {}
      invariant todo <= reached && Adds(origins, reached - todo, p, r)
      decreases |todo|
    {
      var l :| l in todo;
      AddsNext(origins, reached - todo, p, r, l);
      assert reached - (todo - {l}) == (reached - todo) + {l};
      todo := todo - {l};
      r := r[l := (if l in r then r[l] else {}) + {p}];
    }
    assert reached - {} == reached;
  }

  lemma AddsNext(origins: Origins, some: set<LocalId>, p: ParamId, r: Origins, l: LocalId)
    requires Adds(origins, some, p, r) && l !in some
    ensures Adds(origins, some + {l}, p, r[l := (if l in r then r[l] else {}) + {p}])
  {
    assert OriginsAt(r, l) == OriginsAt(origins, l);
  }

  lemma OriginsGrow(c: Collected, ps: set<ParamId>, p: ParamId, reached: set<LocalId>, origins: Origins, next: Origins)
    requires OriginsOf(c, ps, origins) && reached == Reached(c, Tainted(c), p) && Adds(origins, reached, p, next)
    ensures OriginsOf(c, ps + {p}, next)
  {
    hide Reached, Tainted;
    forall l, q
      ensures q in OriginsAt(next, l) <==> q in ps + {p} && Feeds(c, q, l)
    {
      assert q in OriginsAt(origins, l) <==> q in ps && Feeds(c, q, l);
      assert l in reached <==> Feeds(c, p, l);
    }
    forall l | l in next
      ensures next[l] != {}
    {
      assert l in reached ==> p in next[l];
    }
  }

  method CollectOrigins(c: Collected, carriers: set<ParamId>) returns (origins: Origins, spilled: set<ParamId>)
    ensures OriginsOf(c, carriers, origins)
    ensures forall p :: p in spilled <==> p in carriers && SpillsIntoTainted(c, p)
  {
    hide OriginsOf, Adds, Tainted, Reached, SpillsIntoTainted;
    var tainted := PropagateTaint(c);
    origins, spilled := map[], {};
    NoOrigins(c);
    var todo := carriers;
    while todo != {}
      invariant todo <= carriers && OriginsOf(c, carriers - todo, origins)
      invariant forall p :: p in spilled <==> p in carriers - todo && SpillsIntoTainted(c, p)
      decreases |todo|
    {
      var p :| p in todo;
      var reached, spills := Search(c, tainted, p);
      var next := AddOrigin(origins, reached, p);
      OriginsGrow(c, carriers - todo, p, reached, origins, next);
      assert carriers - todo + {p} == carriers - (todo - {p});
      todo, origins := todo - {p}, next;
      if spills {
        spilled := spilled + {p};
      }
    }
    assert carriers - {} == carriers;
  }

  lemma NoOrigins(c: Collected)
    ensures forall ps: set<ParamId> :: ps == {} ==> OriginsOf(c, ps, map[])
  {
  }

  /** The classification of the first locals, every local not yet classified aside. */
  ghost predicate Classified(c: Collected, carriers: set<ParamId>, some: set<LocalId>, clean: map<LocalId, ParamId>, reported: set<ParamId>) {
    && (forall p, l {:trigger OnlyFeeds(c, carriers, p, l)} ::
          (l in clean && clean[l] == p) <==> l in some && OnlyFeeds(c, carriers, p, l))
    && (forall p :: p in reported <==> p in carriers && (SpillsIntoTainted(c, p) || SharesIn(c, carriers, some, p)))
  }

  ghost predicate SharesIn(c: Collected, carriers: set<ParamId>, some: set<LocalId>, p: ParamId) {
    exists l :: l in some && SharesAt(c, carriers, p, l)
  }

  lemma SharesInNext(c: Collected, carriers: set<ParamId>, some: set<LocalId>, p: ParamId, l: LocalId)
    ensures SharesIn(c, carriers, some + {l}, p) <==> SharesIn(c, carriers, some, p) || SharesAt(c, carriers, p, l)
  {
    hide SharesAt;
    if SharesAt(c, carriers, p, l) {
      assert l in some + {l};
    }
    if x :| x in some && SharesAt(c, carriers, p, x) {
      assert x in some + {l};
    }
  }

  ghost predicate SharesAt(c: Collected, carriers: set<ParamId>, p: ParamId, l: LocalId) {
    exists q :: q in carriers && q != p && Feeds(c, p, l) && Feeds(c, q, l)
  }

  /** One more local: tied to its only origin, or all its origins reported. */
  lemma ClassifiedNext(
    c: Collected, carriers: set<ParamId>, origins: Origins, some: set<LocalId>,
    clean: map<LocalId, ParamId>, reported: set<ParamId>, l: LocalId)
    requires Classified(c, carriers, some, clean, reported) && OriginsOf(c, carriers, origins) && l in origins && l !in some
    ensures forall p: ParamId :: origins[l] == {p} ==> Classified(c, carriers, some + {l}, clean[l := p], reported)
    ensures (forall p: ParamId :: origins[l] != {p}) ==> Classified(c, carriers, some + {l}, clean, reported + origins[l])
  {
    hide Feeds, SpillsIntoTainted, Classified, SharesAt, OnlyFeeds;
    forall p: ParamId
      ensures p in origins[l] <==> p in carriers && Feeds(c, p, l)
    {
      assert p in OriginsAt(origins, l) <==> p in carriers && Feeds(c, p, l);
    }
    forall p: ParamId | origins[l] == {p}
      ensures Classified(c, carriers, some + {l}, clean[l := p], reported)
    {
      OnlyOrigin(c, carriers, p, l);
      ClassifiedClean(c, carriers, some, clean, reported, l, p);
    }
    if forall p: ParamId :: origins[l] != {p} {
      SeveralOrigins(c, carriers, origins[l], l);
      ClassifiedShared(c, carriers, some, clean, reported, l, origins[l]);
    }
  }

  lemma ClassifiedClean(
    c: Collected, carriers: set<ParamId>, some: set<LocalId>, clean: map<LocalId, ParamId>, reported: set<ParamId>, l: LocalId, p: ParamId)
    requires Classified(c, carriers, some, clean, reported) && l !in some
    requires forall q :: OnlyFeeds(c, carriers, q, l) <==> q == p
    requires forall q :: q in carriers ==> !SharesAt(c, carriers, q, l)
    ensures Classified(c, carriers, some + {l}, clean[l := p], reported)
  {
    hide OnlyFeeds, SharesAt, SharesIn, SpillsIntoTainted;
    forall q
      ensures SharesIn(c, carriers, some + {l}, q) <==> SharesIn(c, carriers, some, q) || SharesAt(c, carriers, q, l)
    {
      SharesInNext(c, carriers, some, q, l);
    }
  }

  lemma ClassifiedShared(
    c: Collected, carriers: set<ParamId>, some: set<LocalId>, clean: map<LocalId, ParamId>, reported: set<ParamId>, l: LocalId, os: set<ParamId>)
    requires Classified(c, carriers, some, clean, reported) && l !in some && os <= carriers
    requires forall q :: !OnlyFeeds(c, carriers, q, l)
    requires forall q :: q in carriers ==> (SharesAt(c, carriers, q, l) <==> q in os)
    ensures Classified(c, carriers, some + {l}, clean, reported + os)
  {
    hide OnlyFeeds, SharesAt, SharesIn, SpillsIntoTainted;
    forall q
      ensures SharesIn(c, carriers, some + {l}, q) <==> SharesIn(c, carriers, some, q) || SharesAt(c, carriers, q, l)
    {
      SharesInNext(c, carriers, some, q, l);
    }
  }

  lemma OnlyOrigin(c: Collected, carriers: set<ParamId>, p: ParamId, l: LocalId)
    requires forall q :: q in {p} <==> q in carriers && Feeds(c, q, l)
    ensures forall q :: OnlyFeeds(c, carriers, q, l) <==> q == p
    ensures forall q :: q in carriers ==> !SharesAt(c, carriers, q, l)
  {
    hide Feeds;
    assert p in {p};
  }

  lemma SeveralOrigins(c: Collected, carriers: set<ParamId>, os: set<ParamId>, l: LocalId)
    requires os != {} && (forall p: ParamId :: os != {p}) && forall q :: q in os <==> q in carriers && Feeds(c, q, l)
    ensures forall q :: !OnlyFeeds(c, carriers, q, l)
    ensures forall q :: q in carriers ==> (SharesAt(c, carriers, q, l) <==> q in os)
  {
    hide Feeds;
    forall q | q in os
      ensures exists r :: r in os && r != q
    {
      assert os == (os - {q}) + {q};
      var r :| r in os - {q};
    }
  }

  lemma AllClassified(c: Collected, carriers: set<ParamId>, origins: Origins, clean: map<LocalId, ParamId>, reported: set<ParamId>)
    requires Classified(c, carriers, origins.Keys, clean, reported) && OriginsOf(c, carriers, origins)
    ensures forall p, l {:trigger OnlyFeeds(c, carriers, p, l)} :: (l in clean && clean[l] == p) <==> OnlyFeeds(c, carriers, p, l)
    ensures forall p :: p in reported <==> p in carriers && (SpillsIntoTainted(c, p) || SharesLocal(c, carriers, p))
  {
    hide Feeds, SpillsIntoTainted;
    forall p, l | p in carriers && Feeds(c, p, l)
      ensures l in origins
    {
      assert p in OriginsAt(origins, l);
    }
    forall p | p in carriers
      ensures SharesLocal(c, carriers, p) <==> SharesIn(c, carriers, origins.Keys, p)
    {
      if l, q :| q in carriers && q != p && Feeds(c, p, l) && Feeds(c, q, l) {
        assert SharesAt(c, carriers, p, l);
      }
    }
  }

  method ClassifyLocals(c: Collected, carriers: set<ParamId>, origins: Origins, spilled: set<ParamId>)
    returns (clean: map<LocalId, ParamId>, reported: set<ParamId>)
    requires OriginsOf(c, carriers, origins)
    requires forall p :: p in spilled <==> p in carriers && SpillsIntoTainted(c, p)
    ensures Classified(c, carriers, origins.Keys, clean, reported)
  {
    clean, reported := map[], spilled;
    var todo := origins.Keys;
    assert origins.Keys - todo == {};
    hide OriginsOf, Classified;
    NoneClassified(c, carriers, spilled);
    while todo != {}
      invariant todo <= origins.Keys && Classified(c, carriers, origins.Keys - todo, clean, reported)
      decreases |todo|
    {
      var l :| l in todo;
      ClassifiedNext(c, carriers, origins, origins.Keys - todo, clean, reported, l);
      assert origins.Keys - todo + {l} == origins.Keys - (todo - {l});
      todo := todo - {l};
      if p :| p in origins[l] && origins[l] == {p} {
        clean := clean[l := p];
      } else {
        OneElement(origins[l]);
        reported := reported + origins[l];
      }
    }
    assert origins.Keys - {} == origins.Keys;
  }

  lemma OneElement(s: set<ParamId>)
    ensures (forall p :: p in s ==> s != {p}) ==> forall p: ParamId :: s != {p}
  {
    forall p: ParamId | s == {p}
      ensures p in s
    {
    }
  }

  lemma NoneClassified(c: Collected, carriers: set<ParamId>, spilled: set<ParamId>)
    requires forall p :: p in spilled <==> p in carriers && SpillsIntoTainted(c, p)
    ensures forall some: set<LocalId> :: some == {} ==> Classified(c, carriers, some, map[], spilled)
  {
    hide SpillsIntoTainted;
  }

  /** The families: each parameter with its clean aliases. */
  method Families(carriers: set<ParamId>, clean: map<LocalId, ParamId>) returns (family: map<ParamId, set<Var>>)
    ensures family.Keys == carriers
    ensures forall p :: p in carriers ==> family[p] == FamilyOf(clean, p)
  {
    family := map p | p in carriers :: FamilyOf(clean, p);
  }

  function FamilyOf(clean: map<LocalId, ParamId>, p: ParamId): set<Var> {
    {Param(p)} + set l | l in clean && clean[l] == p :: Local(l)
  }

  /** computeAliases. */
  method ComputeAliases(c: Collected, carriers: set<ParamId>) returns (info: AliasInfo)
    ensures Classifies(c, carriers, info)
  {
    hide OriginsOf, Classified, SpillsIntoTainted, SharesLocal, OnlyFeeds;
    var origins, spilled := CollectOrigins(c, carriers);
    var clean, reported := ClassifyLocals(c, carriers, origins, spilled);
    AllClassified(c, carriers, origins, clean, reported);
    var family := Families(carriers, clean);
    info := AliasInfo(clean, family, reported);
  }
}
