/** The cross-file store: harvesting a translation unit and loading a parsed file. */
module SummaryStore {
  import opened Int64
  import opened Summaries
  import opened SummaryMerge

  type Store = map<string, Summary>

  /** A function of a translation unit; only externally visible ones are stored. */
  datatype Entry = Entry(key: string, visible: bool, summary: Summary)

  /** What happens to a store: a unit is harvested, or a summary file is loaded. */
  datatype Event = Harvest(entries: seq<Entry>) | Load(file: Store)

  function Add(store: Store, key: string, s: Summary): Store {
    store[key := if key in store then Merge(store[key], s) else s]
  }

  function HarvestAll(store: Store, entries: seq<Entry>): Store
    decreases |entries|
  {
    if entries == [] then store
    else HarvestAll(if entries[0].visible then Add(store, entries[0].key, entries[0].summary) else store, entries[1..])
  }

  function LoadAll(store: Store, file: Store): Store {
    map key | key in store.Keys + file.Keys ::
      if key !in file then store[key] else if key !in store then file[key] else Merge(store[key], file[key])
  }

  function Apply(store: Store, e: Event): Store {
    match e
    case Harvest(entries) => HarvestAll(store, entries)
    case Load(file) => LoadAll(store, file)
  }

  function ApplyAll(store: Store, events: seq<Event>): Store
    decreases |events|
  {
    if events == [] then store else ApplyAll(Apply(store, events[0]), events[1..])
  }

  // --- What is in a store ---

  /** The number of parameters of a function is part of its key. */
  type Arity = string -> nat

  ghost predicate StoreOk(arity: Arity, store: Store) {
    forall key :: key in store ==> WellFormed(store[key], arity(key))
  }

  ghost predicate EventOk(arity: Arity, e: Event) {
    match e
    case Harvest(entries) => forall i :: 0 <= i < |entries| ==> WellFormed(entries[i].summary, arity(entries[i].key))
    case Load(file) => StoreOk(arity, file)
  }

  /** Which summaries have been offered under which key. */
  type Offers = (string, Summary) -> bool

  predicate OfferedBy(e: Event, key: string, s: Summary) {
    match e
    case Harvest(entries) => Entry(key, true, s) in entries
    case Load(file) => key in file && file[key] == s
  }

  predicate Offered(events: seq<Event>, key: string, s: Summary) {
    exists e :: e in events && OfferedBy(e, key, s)
  }

  /** s is the strongest summary that is weaker than everything in the given set. */
  ghost predicate StrongestWeakening(s: Summary, n: nat, given: Summary -> bool) {
    && WellFormed(s, n)
    && (forall a {:trigger given(a)} :: given(a) ==> Weaker(s, a))
    && forall c {:trigger Weaker(c, s)} :: WellFormed(c, n) && (forall a {:trigger given(a)} :: given(a) ==> Weaker(c, a)) ==> Weaker(c, s)
  }

  lemma StrongestUnique(s: Summary, t: Summary, n: nat, given: Summary -> bool)
    requires StrongestWeakening(s, n, given) && StrongestWeakening(t, n, given)
    ensures SameAnswers(s, t)
  {
    hide Weaker, WellFormed, SameAnswers;
    assert Weaker(t, s);
    assert Weaker(s, t);
    WeakerAntisymmetric(s, t);
  }

  lemma StrongestOfOne(s: Summary, n: nat, given: Summary -> bool)
    requires WellFormed(s, n) && given(s) && forall a {:trigger given(a)} :: given(a) ==> a == s
    ensures StrongestWeakening(s, n, given)
  {
    hide Weaker, WellFormed;
    WeakerReflexive(s);
  }

  lemma StrongestOfUnion(s: Summary, t: Summary, n: nat, a: Summary -> bool, b: Summary -> bool, both: Summary -> bool)
    requires StrongestWeakening(s, n, a) && StrongestWeakening(t, n, b)
    requires forall x {:trigger both(x)} :: both(x) <==> a(x) || b(x)
    ensures StrongestWeakening(Merge(s, t), n, both)
  {
    hide Weaker, WellFormed, Merge;
    MergeWellFormed(s, t, n);
    MergeIsStrongestCommonWeakening(s, t, s, n);
    forall x | both(x)
      ensures Weaker(Merge(s, t), x)
    {
      if a(x) {
        WeakerTransitive(x, s, Merge(s, t));
      } else {
        WeakerTransitive(x, t, Merge(s, t));
      }
    }
    forall c | WellFormed(c, n) && forall x {:trigger both(x)} :: both(x) ==> Weaker(c, x)
      ensures Weaker(c, Merge(s, t))
    {
      forall x | a(x)
        ensures Weaker(c, x)
      {
        assert both(x);
      }
      forall x | b(x)
        ensures Weaker(c, x)
      {
        assert both(x);
      }
      assert Weaker(c, s) && Weaker(c, t);
      MergeIsStrongestCommonWeakening(s, t, c, n);
    }
  }

  /** The store holds, for every key offered, the strongest weakening of the offers. */
  ghost predicate Represents(arity: Arity, store: Store, offers: Offers) {
    && (forall key, s {:trigger offers(key, s)} :: offers(key, s) ==> key in store)
    && (forall key :: key in store ==> exists s :: offers(key, s))
    && (forall key :: key in store ==> StrongestWeakening(store[key], arity(key), s => offers(key, s)))
  }

  lemma AddRepresents(arity: Arity, store: Store, offers: Offers, key: string, s: Summary, after: Offers)
    requires Represents(arity, store, offers) && WellFormed(s, arity(key))
    requires forall k, t {:trigger after(k, t)} :: after(k, t) <==> offers(k, t) || (k == key && t == s)
    ensures Represents(arity, Add(store, key, s), after)
  {
    hide WellFormed, Merge, StrongestWeakening;
    var r := Add(store, key, s);
    assert after(key, s);
    forall k | k in r
      ensures exists t :: after(k, t)
    {
      if k != key {
        var t :| offers(k, t);
        assert after(k, t);
      }
    }
    forall k | k in r
      ensures StrongestWeakening(r[k], arity(k), t => after(k, t))
    {
      if k == key {
        AddedStrongest(arity, store, offers, key, s, after);
      } else {
        SameGiven(r[k], arity(k), t => offers(k, t), t => after(k, t));
      }
    }
  }

  lemma SameGiven(s: Summary, n: nat, a: Summary -> bool, b: Summary -> bool)
    requires StrongestWeakening(s, n, a) && forall t :: a(t) <==> b(t)
    ensures StrongestWeakening(s, n, b)
  {
    hide WellFormed, Weaker;
    forall c | WellFormed(c, n) && forall t {:trigger b(t)} :: b(t) ==> Weaker(c, t)
      ensures Weaker(c, s)
    {
      assert forall t {:trigger a(t)} :: a(t) ==> b(t);
    }
  }

  lemma AddedStrongest(arity: Arity, store: Store, offers: Offers, key: string, s: Summary, after: Offers)
    requires Represents(arity, store, offers) && WellFormed(s, arity(key))
    requires forall k, t {:trigger after(k, t)} :: after(k, t) <==> offers(k, t) || (k == key && t == s)
    ensures StrongestWeakening(Add(store, key, s)[key], arity(key), t => after(key, t))
  {
    hide WellFormed, Merge, StrongestWeakening;
    var one := (t: Summary) => t == s;
    StrongestOfOne(s, arity(key), one);
    if key in store {
      StrongestOfUnion(store[key], s, arity(key), t => offers(key, t), one, t => after(key, t));
    } else {
      assert forall t :: !offers(key, t);
      SameGiven(s, arity(key), one, t => after(key, t));
    }
  }

  lemma {:induction false} HarvestRepresents(arity: Arity, store: Store, offers: Offers, entries: seq<Entry>, after: Offers)
    requires Represents(arity, store, offers) && EventOk(arity, Harvest(entries))
    requires forall k, t {:trigger after(k, t)} :: after(k, t) <==> offers(k, t) || Entry(k, true, t) in entries
    ensures Represents(arity, HarvestAll(store, entries), after)
    decreases |entries|
  {
    hide WellFormed;
    if entries == [] {
      RepresentsSame(arity, store, offers, after);
    } else {
      hide Represents, Add;
      var e := entries[0];
      assert EventOk(arity, Harvest(entries[1..]));
      assert entries == [e] + entries[1..];
      if e.visible {
        var mid: Offers := (k, t) => offers(k, t) || (k == e.key && t == e.summary);
        AddRepresents(arity, store, offers, e.key, e.summary, mid);
        HarvestRepresents(arity, Add(store, e.key, e.summary), mid, entries[1..], after);
      } else {
        HarvestRepresents(arity, store, offers, entries[1..], after);
      }
    }
  }

  lemma RepresentsSame(arity: Arity, store: Store, a: Offers, b: Offers)
    requires Represents(arity, store, a) && forall k, t {:trigger b(k, t)} :: b(k, t) <==> a(k, t)
    ensures Represents(arity, store, b)
  {
    hide StrongestWeakening;
    forall k | k in store
      ensures exists t :: b(k, t)
      ensures StrongestWeakening(store[k], arity(k), t => b(k, t))
    {
      var t :| a(k, t);
      assert b(k, t);
      SameGiven(store[k], arity(k), t => a(k, t), t => b(k, t));
    }
  }

  lemma LoadRepresents(arity: Arity, store: Store, offers: Offers, file: Store, after: Offers)
    requires Represents(arity, store, offers) && EventOk(arity, Load(file))
    requires forall k, t {:trigger after(k, t)} :: after(k, t) <==> offers(k, t) || (k in file && t == file[k])
    ensures Represents(arity, LoadAll(store, file), after)
  {
    hide WellFormed, Merge, StrongestWeakening;
    var r := LoadAll(store, file);
    forall k | k in r
      ensures exists t :: after(k, t)
      ensures StrongestWeakening(r[k], arity(k), t => after(k, t))
    {
      if k in file {
        assert after(k, file[k]);
        var mid: Offers := (j, t) => offers(j, t) || (j == k && t == file[k]);
        AddedStrongest(arity, store, offers, k, file[k], mid);
        assert r[k] == Add(store, k, file[k])[k];
        SameGiven(r[k], arity(k), t => mid(k, t), t => after(k, t));
      } else {
        var t :| offers(k, t);
        assert after(k, t);
        SameGiven(r[k], arity(k), t => offers(k, t), t => after(k, t));
      }
    }
  }

  lemma {:induction false} EventsRepresented(arity: Arity, store: Store, offers: Offers, events: seq<Event>, after: Offers)
    requires Represents(arity, store, offers) && forall e :: e in events ==> EventOk(arity, e)
    requires forall k, t {:trigger after(k, t)} :: after(k, t) <==> offers(k, t) || Offered(events, k, t)
    ensures Represents(arity, ApplyAll(store, events), after)
    decreases |events|
  {
    hide EventOk, OfferedBy;
    if events == [] {
      RepresentsSame(arity, store, offers, after);
    } else {
      hide Represents;
      var e := events[0];
      var mid: Offers := (k, t) => offers(k, t) || OfferedBy(e, k, t);
      EventRepresented(arity, store, offers, e, mid);
      assert events == [e] + events[1..];
      forall k, t
        ensures after(k, t) <==> mid(k, t) || Offered(events[1..], k, t)
      {
        assert Offered(events, k, t) <==> OfferedBy(e, k, t) || Offered(events[1..], k, t);
      }
      EventsRepresented(arity, Apply(store, e), mid, events[1..], after);
    }
  }

  lemma EventRepresented(arity: Arity, store: Store, offers: Offers, e: Event, mid: Offers)
    requires Represents(arity, store, offers) && EventOk(arity, e)
    requires forall k, t {:trigger mid(k, t)} :: mid(k, t) <==> offers(k, t) || OfferedBy(e, k, t)
    ensures Represents(arity, Apply(store, e), mid)
  {
    hide Represents, EventOk;
    match e
    case Harvest(entries) => HarvestRepresents(arity, store, offers, entries, mid);
    case Load(file) => LoadRepresents(arity, store, offers, file, mid);
  }

  /** Stores with the same keys that answer alike. */
  ghost predicate SameStore(a: Store, b: Store) {
    a.Keys == b.Keys && forall key :: key in a ==> SameAnswers(a[key], b[key])
  }

  lemma RepresentedSame(arity: Arity, a: Store, b: Store, offers: Offers)
    requires Represents(arity, a, offers) && Represents(arity, b, offers)
    ensures SameStore(a, b)
  {
    hide StrongestWeakening, SameAnswers;
    forall key
      ensures key in a <==> key in b
    {
    }
    forall key | key in a
      ensures SameAnswers(a[key], b[key])
    {
      StrongestUnique(a[key], b[key], arity(key), s => offers(key, s));
    }
  }

  /**
   The store depends only on which summaries were offered under which keys: not on the order
   of harvests and loads, nor on repeating one.
   */
  lemma StoreDependsOnOffersOnly(arity: Arity, events: seq<Event>, events': seq<Event>)
    requires forall e :: e in events || e in events' ==> EventOk(arity, e)
    requires forall key, s :: Offered(events, key, s) <==> Offered(events', key, s)
    ensures SameStore(ApplyAll(map[], events), ApplyAll(map[], events'))
  {
    hide EventOk, Offered;
    var none: Offers := (k, t) => false;
    var offers: Offers := (k, t) => Offered(events, k, t);
    assert Represents(arity, map[], none);
    hide Represents;
    EventsRepresented(arity, map[], none, events, offers);
    EventsRepresented(arity, map[], none, events', offers);
    RepresentedSame(arity, ApplyAll(map[], events), ApplyAll(map[], events'), offers);
  }

  /** Any order of the same harvests and loads gives the same store. */
  lemma StoreOrderIndependent(arity: Arity, events: seq<Event>, events': seq<Event>)
    requires multiset(events) == multiset(events') && forall e :: e in events ==> EventOk(arity, e)
    ensures SameStore(ApplyAll(map[], events), ApplyAll(map[], events'))
  {
    hide EventOk, SameStore;
    assert forall e :: e in events <==> e in multiset(events);
    assert forall e :: e in events' <==> e in multiset(events');
    StoreDependsOnOffersOnly(arity, events, events');
  }

  /** Nothing the store claims is stronger than any summary offered for the key. */
  lemma StoreNeverStronger(arity: Arity, events: seq<Event>, key: string, s: Summary)
    requires (forall e :: e in events ==> EventOk(arity, e)) && Offered(events, key, s)
    ensures key in ApplyAll(map[], events) && Weaker(ApplyAll(map[], events)[key], s)
  {
    hide EventOk, Offered, WellFormed, Weaker;
    var none: Offers := (k, t) => false;
    var offers: Offers := (k, t) => Offered(events, k, t);
    EventsRepresented(arity, map[], none, events, offers);
    RepresentedWeaker(arity, ApplyAll(map[], events), offers, key, s);
  }

  lemma RepresentedWeaker(arity: Arity, store: Store, offers: Offers, key: string, s: Summary)
    requires Represents(arity, store, offers) && offers(key, s)
    ensures key in store && Weaker(store[key], s)
  {
    hide WellFormed, Weaker;
    var given := (t: Summary) => offers(key, t);
    assert StrongestWeakening(store[key], arity(key), given);
    assert given(s);
  }

  // --- In place ---

  class Global {
    var store: Store

    constructor ()
      ensures store == map[]
    {
      store := map[];
    }

    method AddOne(key: string, s: Summary)
      modifies this
      ensures store == Add(old(store), key, s)
    {
      if key in store {
        var cell := new Cell(store[key]);
        cell.MergeConservative(s);
        store := store[key := cell.into];
      } else {
        store := store[key := s];
      }
    }

    /** harvestGlobal. */
    method HarvestGlobal(entries: seq<Entry>)
      modifies this
      ensures store == HarvestAll(old(store), entries)
    {
      hide Add;
      for i := 0 to |entries|
        invariant HarvestAll(store, entries[i..]) == HarvestAll(old(store), entries)
      {
        assert entries[i..][0] == entries[i] && entries[i..][1..] == entries[i + 1..];
        if entries[i].visible {
          AddOne(entries[i].key, entries[i].summary);
        }
      }
    }

    /** loadGlobal, after the file was parsed. */
    method LoadGlobal(file: Store)
      modifies this
      ensures store == LoadAll(old(store), file)
    {
      hide Merge, LoadAll, Add;
      ghost var was, want := store, LoadAll(store, file);
      LoadedEntries(was, file);
      var todo := file.Keys;
      while todo != {}
        invariant todo <= file.Keys
        invariant forall k :: k in store <==> k in was || (k in file && k !in todo)
        invariant forall k :: k in was && k in todo ==> store[k] == was[k]
        invariant forall k :: k in store && k !in todo ==> store[k] == want[k]
        decreases |todo|
      {
        var k :| k in todo;
        todo := todo - {k};
        AddedEntries(store, k, file[k]);
        AddOne(k, file[k]);
      }
      assert store.Keys == want.Keys;
    }
  }

  lemma AddedEntries(store: Store, key: string, s: Summary)
    ensures var r := Add(store, key, s);
            && (forall k :: k in r <==> k in store || k == key)
            && r[key] == (if key in store then Merge(store[key], s) else s)
            && forall k :: k in store && k != key ==> r[k] == store[k]
  {
  }

  lemma LoadedEntries(store: Store, file: Store)
    ensures var r := LoadAll(store, file);
            && (forall k :: k in r <==> k in store || k in file)
            && (forall k :: k in store && k !in file ==> r[k] == store[k])
            && (forall k :: k in file && k in store ==> r[k] == Merge(store[k], file[k]))
            && (forall k :: k in file && k !in store ==> r[k] == file[k])
  {
  }
}
