/**
 * What the totals of a call site are, in terms of what has arrived: the allocations of the site, and of those the ones
 * that the book no longer holds.
 */
module HeapTotals {
  import opened Bits
  import opened HeapBook

  /** What an event adds to the total of site `p`, if it is an allocation. */
  function Weight(u: Unit, e: Event, p: Site): nat {
    if e.Free? || e.site != p then 0 else if u.Bytes? then e.size else 1
  }

  /** All allocations of the site that have arrived. */
  function ArrivedTotal(u: Unit, events: seq<Event>, order: seq<nat>, p: Site): nat
    requires InRange(events, order)
  {
    if order == [] then 0
    else
      var n := |order| - 1;
      ArrivedTotal(u, events, order[..n], p) + Weight(u, events[order[n]], p)
  }

  /** The book holds the allocation with number `i`. */
  predicate InBook(live: Live, events: seq<Event>, i: nat)
    requires i < |events|
  {
    var e := events[i];
    e.Alloc? && LiveAlloc(i, e.size, e.site) in ListAt(live, e.address)
  }

  /** Those of them that the book does not hold. */
  function GoneTotal(u: Unit, events: seq<Event>, order: seq<nat>, live: Live, p: Site): nat
    requires InRange(events, order)
  {
    if order == [] then 0
    else
      var n := |order| - 1;
      GoneTotal(u, events, order[..n], live, p)
      + if InBook(live, events, order[n]) then 0 else Weight(u, events[order[n]], p)
  }

  /** The totals after the events have been applied in the order in which they arrived. */
  function SitesApplied(events: seq<Event>, order: seq<nat>): Sites
    requires InRange(events, order)
  {
    if order == [] then map[]
    else
      var n := |order| - 1;
      var before, i := SitesApplied(events, order[..n]), order[n];
      match events[i]
      case Alloc(x, size, site) => SitesAfterAlloc(before, LiveAlloc(i, size, site))
      case Free(x) => SitesTakeFree(before, Applied(events, order[..n]), x, i)
  }

  /** The totals say what has arrived, and what of it is gone. */
  ghost predicate TotalsOk(sites: Sites, events: seq<Event>, order: seq<nat>, live: Live)
    requires InRange(events, order)
  {
    forall p :: TotalsAt(sites, events, order, live, p)
  }

  predicate TotalsAt(sites: Sites, events: seq<Event>, order: seq<nat>, live: Live, p: Site)
    requires InRange(events, order)
  {
    && StatsAt(sites, p).allocBytes == ArrivedTotal(Bytes, events, order, p)
    && StatsAt(sites, p).allocCount == ArrivedTotal(Count, events, order, p)
    && StatsAt(sites, p).freeBytes == GoneTotal(Bytes, events, order, live, p)
    && StatsAt(sites, p).freeCount == GoneTotal(Count, events, order, live, p)
  }

  // ---- One arrival ----

  lemma ArrivedOneMore(u: Unit, events: seq<Event>, order: seq<nat>, i: nat, live: Live, p: Site)
    requires InRange(events, order) && i < |events|
    ensures InRange(events, order + [i])
    ensures ArrivedTotal(u, events, order + [i], p) == ArrivedTotal(u, events, order, p) + Weight(u, events[i], p)
    ensures GoneTotal(u, events, order + [i], live, p) ==
      GoneTotal(u, events, order, live, p) + if InBook(live, events, i) then 0 else Weight(u, events[i], p)
  {
    assert (order + [i])[..|order|] == order;
    hide InBook, Weight;
  }

  /** The book holds the same of what has arrived. */
  lemma {:induction false} SameGone(u: Unit, events: seq<Event>, order: seq<nat>, live: Live, live': Live, p: Site)
    requires InRange(events, order)
    requires forall j :: j in order ==> (InBook(live', events, j) <==> InBook(live, events, j))
    ensures GoneTotal(u, events, order, live', p) == GoneTotal(u, events, order, live, p)
    decreases |order|
  {
    hide InBook, Weight;
    if order == [] {
    } else {
      var n := |order| - 1;
      assert order[n] in order && forall j :: j in order[..n] ==> j in order;
      SameGone(u, events, order[..n], live, live', p);
    }
  }

  /** Every allocation arrives once. */
  ghost predicate AllocsOnce(events: seq<Event>, order: seq<nat>)
    requires InRange(events, order)
  {
    forall k, m :: 0 <= k < m < |order| && events[order[m]].Alloc? ==> order[k] != order[m]
  }

  /** Exactly one allocation is gone that was there. */
  lemma {:induction false} OneMoreGone(u: Unit, events: seq<Event>, order: seq<nat>, live: Live, live': Live, a: nat,
                                       p: Site)
    requires InRange(events, order) && AllocsOnce(events, order) && a in order && events[a].Alloc?
    requires InBook(live, events, a) && !InBook(live', events, a)
    requires forall j :: j in order && j != a ==> (InBook(live', events, j) <==> InBook(live, events, j))
    ensures GoneTotal(u, events, order, live', p) == GoneTotal(u, events, order, live, p) + Weight(u, events[a], p)
    decreases |order|
  {
    hide InBook, Weight, AllocsOnce;
    var n := |order| - 1;
    var before := order[..n];
    assert order == before + [order[n]];
    AllocsOnceBefore(events, order, a);
    if order[n] == a {
      SameGone(u, events, before, live, live', p);
    } else {
      OneMoreGone(u, events, before, live, live', a, p);
    }
  }

  lemma AllocsOnceBefore(events: seq<Event>, order: seq<nat>, a: nat)
    requires order != [] && InRange(events, order) && AllocsOnce(events, order) && a < |events| && events[a].Alloc?
    ensures InRange(events, order[..|order| - 1]) && AllocsOnce(events, order[..|order| - 1])
    ensures order[|order| - 1] == a ==> a !in order[..|order| - 1]
  {
  }

  lemma AllocComesOnce(events: seq<Event>, order: seq<nat>)
    requires Arrival(events, order)
    ensures AllocsOnce(events, order)
  {
  }

  lemma NewIsNew(events: seq<Event>, order: seq<nat>, i: nat)
    requires Arrival(events, order + [i]) && i < |events| && events[i].Alloc?
    ensures i !in order
  {
    var all := order + [i];
    forall k | 0 <= k < |order|
      ensures order[k] != i
    {
      assert all[k] == order[k] && all[|order|] == i;
    }
  }

  lemma AllocJoinsBook(events: seq<Event>, live: Live, i: nat, j: nat)
    requires i < |events| && j < |events| && events[i].Alloc?
    ensures var e := events[i];
      InBook(AddAlloc(live, e.address, LiveAlloc(i, e.size, e.site)), events, j) <==> j == i || InBook(live, events, j)
  {
    var e := events[i];
    var l := LiveAlloc(i, e.size, e.site);
    var list := ListAt(live, e.address);
    assert forall x :: x in list + [l] <==> x in list || x == l;
  }

  lemma AllocTotals(sites: Sites, events: seq<Event>, order: seq<nat>, live: Live, i: nat, p: Site)
    requires InRange(events, order) && InRange(events, order + [i]) && i < |events| && events[i].Alloc? && i !in order
    requires TotalsAt(sites, events, order, live, p)
    ensures var e := events[i];
      var l := LiveAlloc(i, e.size, e.site);
      TotalsAt(SitesAfterAlloc(sites, l), events, order + [i], AddAlloc(live, e.address, l), p)
  {
    var e := events[i];
    var l := LiveAlloc(i, e.size, e.site);
    var live' := AddAlloc(live, e.address, l);
    hide InBook, AddAlloc;
    forall j | j in order
      ensures InBook(live', events, j) <==> InBook(live, events, j)
    {
      AllocJoinsBook(events, live, i, j);
    }
    AllocJoinsBook(events, live, i, i);
    forall u: Unit
      ensures ArrivedTotal(u, events, order + [i], p) == ArrivedTotal(u, events, order, p) + Weight(u, e, p)
      ensures GoneTotal(u, events, order + [i], live', p) == GoneTotal(u, events, order, live, p)
    {
      ArrivedOneMore(u, events, order, i, live', p);
      SameGone(u, events, order, live, live', p);
    }
    hide ArrivedTotal, GoneTotal;
    assert ArrivedTotal(Bytes, events, order + [i], p) == ArrivedTotal(Bytes, events, order, p) + Weight(Bytes, e, p);
    assert ArrivedTotal(Count, events, order + [i], p) == ArrivedTotal(Count, events, order, p) + Weight(Count, e, p);
    assert GoneTotal(Bytes, events, order + [i], live', p) == GoneTotal(Bytes, events, order, live, p);
    assert GoneTotal(Count, events, order + [i], live', p) == GoneTotal(Count, events, order, live, p);
  }

  /** The list without its entry `k` holds the others still. */
  lemma RemoveHolds(list: seq<LiveAlloc>, k: nat, l: LiveAlloc)
    requires Ascending(list) && k < |list|
    ensures l in Remove(list, k) <==> l in list && l != list[k]
  {
    var rest := Remove(list, k);
    if l in rest {
      var m :| 0 <= m < |rest| && rest[m] == l;
      assert l == if m < k then list[m] else list[m + 1];
    }
    if l in list && l != list[k] {
      var m :| 0 <= m < |list| && list[m] == l;
      assert l == if m < k then rest[m] else rest[m - 1];
    }
  }

  lemma FreeLeavesBook(events: seq<Event>, live: Live, x: U64, f: nat, j: nat)
    requires j < |events| && Ascending(ListAt(live, x)) && PartitionPoint(ListAt(live, x), f) > 0
    ensures InBook(TakeFree(live, x, f), events, j) <==>
      InBook(live, events, j)
      && !(events[j].address == x && LiveAlloc(j, events[j].size, events[j].site) == Taken(live, x, f))
  {
    var list, n := ListAt(live, x), PartitionPoint(ListAt(live, x), f);
    hide PartitionPoint, Remove, Ascending;
    assert ListAt(TakeFree(live, x, f), x) == Remove(list, n - 1);
    if events[j].Alloc? {
      RemoveHolds(list, n - 1, LiveAlloc(j, events[j].size, events[j].site));
    }
  }

  lemma FreeTotals(sites: Sites, events: seq<Event>, order: seq<nat>, live: Live, f: nat, x: U64, p: Site)
    requires Arrival(events, order) && f < |events| && events[f] == Free(x)
    requires Ascending(ListAt(live, x)) && Authentic(events, order, x, ListAt(live, x))
    requires PartitionPoint(ListAt(live, x), f) > 0 ==> Taken(live, x, f).site in sites
    requires InRange(events, order + [f]) && TotalsAt(sites, events, order, live, p)
    ensures TotalsAt(SitesTakeFree(sites, live, x, f), events, order + [f], TakeFree(live, x, f), p)
  {
    var live' := TakeFree(live, x, f);
    ArrivedOneMore(Bytes, events, order, f, live', p);
    ArrivedOneMore(Count, events, order, f, live', p);
    if PartitionPoint(ListAt(live, x), f) > 0 {
      var l := Taken(live, x, f);
      assert l in ListAt(live, x) && l.seqno in order && events[l.seqno] == Alloc(x, l.size, l.site);
      AllocComesOnce(events, order);
      hide *;
      Leaves(events, order, live, x, f);
      FreeWeighsNothing(events[f], l, Alloc(x, l.size, l.site), p);
      forall u: Unit
        ensures GoneTotal(u, events, order, live', p) == GoneTotal(u, events, order, live, p) + Share(u, l, p)
        ensures GoneTotal(u, events, order + [f], live', p) == GoneTotal(u, events, order, live', p)
        ensures ArrivedTotal(u, events, order + [f], p) == ArrivedTotal(u, events, order, p)
      {
        ArrivedOneMore(u, events, order, f, live', p);
        OneMoreGone(u, events, order, live, live', l.seqno, p);
      }
      CreditedTotals(sites, events, order, live, live', f, l, p);
      CreditIs(sites, live, x, f);
    } else {
      hide ArrivedTotal, GoneTotal, InBook;
    }
  }

  lemma FreeWeighsNothing(f: Event, l: LiveAlloc, a: Event, p: Site)
    requires f.Free? && a == Alloc(a.address, l.size, l.site)
    ensures forall u :: Weight(u, f, p) == 0 && Weight(u, a, p) == Share(u, l, p)
  {
  }

  lemma CreditIs(sites: Sites, live: Live, x: U64, f: nat)
    requires PartitionPoint(ListAt(live, x), f) > 0
    ensures SitesTakeFree(sites, live, x, f) == SitesAfterFree(sites, Taken(live, x, f))
  {
  }

  lemma CreditedTotals(sites: Sites, events: seq<Event>, order: seq<nat>, live: Live, live': Live, f: nat, l: LiveAlloc,
                       p: Site)
    requires InRange(events, order) && InRange(events, order + [f]) && TotalsAt(sites, events, order, live, p)
    requires f < |events| && events[f].Free? && l.site in sites
    requires forall u :: ArrivedTotal(u, events, order + [f], p) == ArrivedTotal(u, events, order, p)
    requires forall u :: GoneTotal(u, events, order + [f], live', p) == GoneTotal(u, events, order, live', p)
    requires forall u :: GoneTotal(u, events, order, live', p) == GoneTotal(u, events, order, live, p) + Share(u, l, p)
    ensures TotalsAt(SitesAfterFree(sites, l), events, order + [f], live', p)
  {
    hide ArrivedTotal, GoneTotal;
    assert GoneTotal(Bytes, events, order + [f], live', p) == GoneTotal(Bytes, events, order, live, p) +
        Share(Bytes, l, p);
    assert GoneTotal(Count, events, order + [f], live', p) == GoneTotal(Count, events, order, live, p) +
        Share(Count, l, p);
    assert ArrivedTotal(Bytes, events, order + [f], p) == ArrivedTotal(Bytes, events, order, p);
    assert ArrivedTotal(Count, events, order + [f], p) == ArrivedTotal(Count, events, order, p);
  }

  lemma Leaves(events: seq<Event>, order: seq<nat>, live: Live, x: U64, f: nat)
    requires InRange(events, order) && Ascending(ListAt(live, x)) && PartitionPoint(ListAt(live, x), f) > 0
    requires var l := Taken(live, x, f);
      l.seqno in order && l.seqno < |events| && events[l.seqno] == Alloc(x, l.size, l.site) && l in ListAt(live, x)
    ensures var a := Taken(live, x, f).seqno;
      && InBook(live, events, a) && !InBook(TakeFree(live, x, f), events, a)
      && forall j :: j in order && j != a ==> (InBook(TakeFree(live, x, f), events, j) <==> InBook(live, events, j))
  {
    var a := Taken(live, x, f).seqno;
    assert InBook(live, events, a);
    hide PartitionPoint, Ascending, TakeFree, Taken, InBook;
    FreeLeavesBook(events, live, x, f, a);
    forall j | j in order && j != a
      ensures InBook(TakeFree(live, x, f), events, j) <==> InBook(live, events, j)
    {
      FreeLeavesBook(events, live, x, f, j);
    }
  }

  // ---- Every arrival order ----

  ghost predicate SitesKnown(sites: Sites, events: seq<Event>, order: seq<nat>)
    requires InRange(events, order)
  {
    forall j :: j in order && events[j].Alloc? ==> events[j].site in sites
  }

  lemma SitesGrow(sites: Sites, l: LiveAlloc, p: Site)
    requires p in sites || p == l.site
    ensures p in SitesAfterAlloc(sites, l) && (p in sites ==> p in SitesAfterFree(sites, l))
  {
  }

  lemma SitesOneMore(events: seq<Event>, order: seq<nat>, i: nat)
    requires InRange(events, order) && i < |events|
    ensures InRange(events, order + [i])
    ensures Applied(events, order + [i]) == ApplyOne(events, Applied(events, order), i)
    ensures var e := events[i];
      SitesApplied(events, order + [i]) ==
        if e.Alloc? then SitesAfterAlloc(SitesApplied(events, order), LiveAlloc(i, e.size, e.site))
        else SitesTakeFree(SitesApplied(events, order), Applied(events, order), e.address, i)
  {
    assert (order + [i])[..|order|] == order;
    hide SitesAfterAlloc, SitesTakeFree, ApplyOne;
  }

  lemma {:induction false} SitesAreKnown(events: seq<Event>, order: seq<nat>)
    requires InRange(events, order)
    ensures SitesKnown(SitesApplied(events, order), events, order)
    decreases |order|
  {
    if order == [] {
    } else {
      var n := |order| - 1;
      var before, i := order[..n], order[n];
      assert before + [i] == order;
      SitesAreKnown(events, before);
      SitesOneMore(events, before, i);
      hide SitesApplied, Applied, SitesAfterAlloc, PartitionPoint, Taken;
    }
  }

  lemma NothingArrived(events: seq<Event>, p: Site)
    ensures InRange(events, []) && TotalsAt(SitesApplied(events, []), events, [], Applied(events, []), p)
  {
  }

  /**
   * After any admissible arrival, a site's allocated bytes and number are the sum and the number of its allocations
   * that have arrived, and its freed bytes and number are those of them that the book no longer holds.
   */
  lemma {:induction false} TotalsAreSums(events: seq<Event>, order: seq<nat>, p: Site)
    requires Arrival(events, order)
    ensures TotalsAt(SitesApplied(events, order), events, order, Applied(events, order), p)
    decreases |order|
  {
    if order == [] {
      NothingArrived(events, p);
    } else {
      var n := |order| - 1;
      var before, i := order[..n], order[n];
      assert before + [i] == order;
      ArrivalPrefix(events, order, n);
      assert InRange(events, before);
      hide Arrival, SitesApplied, Applied, TotalsAt, Authentic, Ascending, Settled, Kept, WellKept, AddAlloc, TakeFree,
        SitesAfterAlloc, SitesTakeFree;
      TotalsAreSums(events, before, p);
      SitesOneMore(events, before, i);
      var live, sites := Applied(events, before), SitesApplied(events, before);
      match events[i]
      case Alloc(x, size, site) =>
        NewIsNew(events, before, i);
        AllocTotals(sites, events, before, live, i, p);
      case Free(x) =>
        BookMeaning(events, before, x);
        TakenIsKnown(sites, events, before, live, x, i);
        FreeTotals(sites, events, before, live, i, x, p);
    }
  }

  lemma TakenIsKnown(sites: Sites, events: seq<Event>, order: seq<nat>, live: Live, x: U64, f: nat)
    requires InRange(events, order) && sites == SitesApplied(events, order)
    requires Authentic(events, order, x, ListAt(live, x))
    ensures PartitionPoint(ListAt(live, x), f) > 0 ==> Taken(live, x, f).site in sites
  {
    SitesAreKnown(events, order);
    hide SitesApplied;
    if PartitionPoint(ListAt(live, x), f) > 0 {
      assert Taken(live, x, f).seqno in order;
    }
  }
}
