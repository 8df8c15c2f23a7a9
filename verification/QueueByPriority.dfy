/** The bounded queue in terms of the priorities and identifiers of its connections: who is
    admitted, and who has to go. */
module QueueByPriority {
  import opened PriorityQueue

  /** The first of two has to go first: its priority is lower, or as high and it is newer. */
  predicate Outranked(a: Connection, b: Connection) {
    a.priority < b.priority || (a.priority == b.priority && a.objectId > b.objectId)
  }

  /** Whoever is further back has a priority at least as high, and of two with one priority is
      the older. */
  ghost predicate ByPriority(q: seq<Connection>) {
    forall i, j :: 0 <= i < j < |q| ==> Outranked(q[i], q[j])
  }

  /** Identifiers are given out once. */
  ghost predicate OwnIds(q: seq<Connection>) {
    forall i, j :: 0 <= i < j < |q| ==> q[i].objectId != q[j].objectId
  }

  ghost predicate Within(q: seq<Connection>, all: seq<Connection>) {
    forall i :: 0 <= i < |q| ==> q[i] in all
  }

  /** All of the first have to go before any of the second. */
  ghost predicate AllOutranked(gone: seq<Connection>, left: seq<Connection>) {
    forall i, j :: 0 <= i < |gone| && 0 <= j < |left| ==> Outranked(gone[i], left[j])
  }

  // ------------------------------------------------------------------- the order

  lemma LessIsOutranked(a: Connection, b: Connection)
    requires a.objectId != b.objectId
    ensures Less(a, b) <==> Outranked(a, b)
    ensures Outranked(a, b) <==> !Outranked(b, a)
  {
  }

  lemma OutrankedTransitive(a: Connection, b: Connection, c: Connection)
    requires Outranked(a, b) && Outranked(b, c)
    ensures Outranked(a, c)
  {
  }

  /** A sorted queue is one in which whoever has to go first stands first. */
  lemma SortedIff(q: seq<Connection>)
    requires OwnIds(q)
    ensures Sorted(Less, q) <==> ByPriority(q)
  {
    forall i, j | 0 <= i < j < |q| ensures !Less(q[j], q[i]) <==> Outranked(q[i], q[j]) {
      LessIsOutranked(q[j], q[i]);
      LessIsOutranked(q[i], q[j]);
    }
    hide Less, Outranked;
  }

  lemma Ordered(q: seq<Connection>)
    requires OwnIds(q)
    ensures Distinct(q) && Orders(Less, Elements(q))
  {
    LessOrders(Elements(q));
  }

  lemma Inherited(q: seq<Connection>, all: seq<Connection>)
    requires OwnIds(all) && Within(q, all) && Distinct(q)
    ensures OwnIds(q)
  {
    forall i, j | 0 <= i < j < |q| ensures q[i].objectId != q[j].objectId {
      assert q[i] in all && q[j] in all;
      var k :| 0 <= k < |all| && all[k] == q[i];
      var l :| 0 <= l < |all| && all[l] == q[j];
    }
  }

  // ---------------------------------------------------------------- one registration

  /** There is somebody who has to go before the newcomer exactly if the first has. */
  lemma PlaceIff(q: seq<Connection>, cd: Connection)
    requires OwnIds(q + [cd]) && ByPriority(q)
    ensures Place(Less, q, cd) > 0 <==> exists k :: 0 <= k < |q| && Outranked(q[k], cd)
  {
    hide Less, Outranked;
    forall k | 0 <= k < |q| ensures Less(cd, q[k]) <==> !Outranked(q[k], cd) {
      assert (q + [cd])[k] == q[k] && (q + [cd])[|q|] == cd;
      LessIsOutranked(cd, q[k]);
    }
    forall k | 0 < k < |q| ensures Outranked(q[k], cd) ==> Outranked(q[0], cd) {
      if Outranked(q[k], cd) { OutrankedTransitive(q[0], q[k], cd); }
    }
  }

  /** The entries that are not cancelled, or all of them while there is room. */
  ghost function Base(q: seq<Connection>, max: nat, gone: set<Connection>): seq<Connection> {
    if |q| >= max then Among<Connection>(q, Elements<Connection>(q) - gone) else q
  }

  lemma AmongIff(q: seq<Connection>, s: set<Connection>)
    ensures forall i :: 0 <= i < |Among<Connection>(q, s)| ==>
              Among<Connection>(q, s)[i] in q && Among<Connection>(q, s)[i] in s
    ensures forall i :: 0 <= i < |q| && q[i] in s ==> q[i] in Among<Connection>(q, s)
  {
    if q != [] { AmongIff(q[1..], s); }
  }

  lemma BaseOrdered(q: seq<Connection>, max: nat, gone: set<Connection>, cd: Connection)
    requires OwnIds(q + [cd]) && ByPriority(q)
    ensures var base := Base(q, max, gone);
            && OwnIds(base + [cd]) && ByPriority(base) && Sorted(Less, base) && Distinct(base + [cd])
            && Orders(Less, Elements(base + [cd]))
  {
    hide Outranked, Less;
    var base, all := Base(q, max, gone), q + [cd];
    Ordered(all);
    assert forall i :: 0 <= i < |q| ==> all[i] == q[i];
    assert OwnIds(q);
    SortedIff(q);
    LiveKeeps(Less, q, max, gone, cd);
    if |q| >= max { AmongIff(q, Elements<Connection>(q) - gone); }
    forall i | 0 <= i < |base + [cd]| ensures (base + [cd])[i] in all {
      if i == |base| {
        assert all[|q|] == cd;
      } else {
        assert (base + [cd])[i] == base[i];
        if |q| >= max { assert base[i] in q; }
      }
    }
    Inherited(base + [cd], all);
    assert forall i :: 0 <= i < |base| ==> (base + [cd])[i] == base[i];
    assert OwnIds(base);
    SortedIff(base);
  }

  /** Clearing a full queue makes it shorter exactly if somebody in it is cancelled. */
  lemma BaseShorter(q: seq<Connection>, max: nat, gone: set<Connection>)
    requires |q| == max
    ensures |Base(q, max, gone)| < max <==> exists k :: 0 <= k < |q| && q[k] in gone
    ensures forall i :: 0 <= i < |Base(q, max, gone)| ==> Base(q, max, gone)[i] in q && Base(q, max, gone)[i] !in gone
    ensures forall i :: 0 <= i < |q| && q[i] !in gone ==> q[i] in Base(q, max, gone)
  {
    var base, some := Base(q, max, gone), Among<Connection>(q, gone);
    AmongSplit(q, gone);
    assert |q| == |base| + |some| by { assert |multiset(q)| == |multiset(base)| + |multiset(some)|; }
    AmongIff(q, gone);
    AmongIff(q, Elements<Connection>(q) - gone);
    if some != [] {
      assert some[0] in q;
      var k :| 0 <= k < |q| && q[k] == some[0];
    }
  }

  /** Whoever makes room for the newcomer has to go before all who stay. */
  lemma EvictedFirst(base: seq<Connection>, max: nat, cd: Connection)
    requires OwnIds(base + [cd]) && Sorted(Less, base)
    ensures var r := Admit<Connection>(Less, base, max, cd);
            ByPriority(r.queue) && AllOutranked(r.shut, r.queue) && OwnIds(r.queue) && Within(r.queue, base + [cd])
  {
    hide Outranked, Less, Place;
    var longer, all := Insert<Connection>(Less, base, cd), base + [cd];
    Ordered(all);
    InsertSorted(Less, base, cd);
    assert forall i :: 0 <= i < |base| ==> all[i] == base[i];
    assert all[|base|] == cd;
    Inherited(longer, all);
    SortedIff(longer);
    SortedIff(base);
    if |base| >= max && Place<Connection>(Less, base, cd) != 0 {
      FrontStays(Less, base, cd);
    }
  }

  /** A registration with a full queue in which nobody is cancelled succeeds exactly if somebody
      in it has a lower priority, or the same and is newer; where there is room, or somebody
      cancelled to clear away, it always does. The queue stays in order, and whoever is shut
      down without being cancelled has to go before everybody who stays. */
  lemma Registered(q: seq<Connection>, max: nat, gone: set<Connection>, cd: Connection)
    requires OwnIds(q + [cd]) && ByPriority(q) && |q| <= max
    ensures var r := Register<Connection>(Less, q, max, gone, cd);
            && ByPriority(r.queue) && OwnIds(r.queue)
            && (r.added <==> |q| < max || exists k :: 0 <= k < |q| && (q[k] in gone || Outranked(q[k], cd)))
            && (forall i, j :: 0 <= i < |r.shut| && r.shut[i] !in gone && 0 <= j < |r.queue| ==>
                  Outranked(r.shut[i], r.queue[j]))
            && (forall k :: 0 <= k < |q| && q[k] in gone && |q| == max ==> q[k] in r.shut)
            && (|q| < max ==> r.shut == [])
  {
    AddedIff(q, max, gone, cd);
    var base := Base(q, max, gone);
    BaseOrdered(q, max, gone, cd);
    EvictedFirst(base, max, cd);
    AmongIff(q, gone);
    if |q| == max { BaseAtMost(q, max, gone); }
    hide Outranked, Less, Place, Insert, ByPriority, OwnIds, Sorted, Orders, Distinct, Among;
  }

  lemma AddedIff(q: seq<Connection>, max: nat, gone: set<Connection>, cd: Connection)
    requires OwnIds(q + [cd]) && ByPriority(q) && |q| <= max
    ensures Register<Connection>(Less, q, max, gone, cd).added <==>
              |q| < max || exists k :: 0 <= k < |q| && (q[k] in gone || Outranked(q[k], cd))
  {
    var base := Base(q, max, gone);
    BaseOrdered(q, max, gone, cd);
    PlaceIff(base, cd);
    if |q| == max {
      BaseShorter(q, max, gone);
      BaseAtMost(q, max, gone);
      SameOutranked(q, base, gone, cd);
    }
    hide Outranked, Less, Place, Insert, ByPriority, OwnIds, Sorted, Orders, Distinct, Among;
  }

  lemma BaseAtMost(q: seq<Connection>, max: nat, gone: set<Connection>)
    ensures |Base(q, max, gone)| <= |q|
  {
  }

  /** Whoever of the others has to go before the newcomer is still there. */
  lemma SameOutranked(q: seq<Connection>, base: seq<Connection>, gone: set<Connection>, cd: Connection)
    requires Within(base, q) && forall i :: 0 <= i < |q| && q[i] !in gone ==> q[i] in base
    ensures (exists k :: 0 <= k < |q| && (q[k] in gone || Outranked(q[k], cd)))
       <==> (exists k :: 0 <= k < |q| && q[k] in gone) || exists k :: 0 <= k < |base| && Outranked(base[k], cd)
  {
    hide Outranked;
    if k :| 0 <= k < |q| && q[k] !in gone && Outranked(q[k], cd) {
      assert q[k] in base;
      var i :| 0 <= i < |base| && base[i] == q[k];
    }
    if i :| 0 <= i < |base| && Outranked(base[i], cd) {
      assert base[i] in q;
      var k :| 0 <= k < |q| && q[k] == base[i];
    }
  }

  // ------------------------------------------------------------------- all of them

  /** Without cancellations or departures nobody outside outranks anybody inside, however many
      have come; the queue is full or holds them all. */
  lemma HighestStay(max: nat, run: seq<Connection>)
    requires OwnIds(run)
    ensures var q := After<Connection>(Less, max, Registrations<Connection>(run)).queue;
            && ByPriority(q) && |q| == (if |run| < max then |run| else max) && Within(q, run)
            && forall i, j :: 0 <= i < |run| && run[i] !in q && 0 <= j < |q| ==> Outranked(run[i], q[j])
  {
    Ordered(run);
    QueueHoldsTheGreatest(Less, max, run);
    RankedKeeps(Less, run);
    hide Outranked, Less, Ranked, After, ByRank, OwnIds, Orders, Sorted, ByPriority;
    var u := Ranked<Connection>(Less, run);
    SameMembers(u, run);
    Inherited(u, run);
    SortedIff(u);
    LastOnes(u, max);
    var q := Last<Connection>(max, u);
    forall i, j | 0 <= i < |run| && run[i] !in q && 0 <= j < |q| ensures Outranked(run[i], q[j]) {
      assert run[i] in u;
      var k :| 0 <= k < |u| && u[k] == run[i];
    }
    forall i | 0 <= i < |q| ensures q[i] in run {
      assert q[i] in u;
    }
  }

  lemma SameMembers(u: seq<Connection>, run: seq<Connection>)
    requires multiset(u) == multiset(run)
    ensures |u| == |run| && Within(u, run) && Within(run, u)
  {
    assert |multiset(u)| == |u| && |multiset(run)| == |run|;
    forall i | 0 <= i < |u| ensures u[i] in run { assert u[i] in multiset(u); }
    forall i | 0 <= i < |run| ensures run[i] in u { assert run[i] in multiset(run); }
  }

  lemma LastOnes(u: seq<Connection>, max: nat)
    requires ByPriority(u)
    ensures var q := Last<Connection>(max, u);
            && ByPriority(q) && |q| == (if |u| < max then |u| else max) && Within(q, u)
            && forall i, j :: 0 <= i < |u| && u[i] !in q && 0 <= j < |q| ==> Outranked(u[i], q[j])
  {
    hide Outranked;
    var q := Last<Connection>(max, u);
    var d := |u| - |q|;
    assert q == u[d..];
    forall i, j | 0 <= i < |u| && u[i] !in q && 0 <= j < |q| ensures Outranked(u[i], q[j]) {
      Tail(u, d, i);
      assert u[d + j] == q[j];
    }
  }

  lemma Tail(u: seq<Connection>, d: nat, i: nat)
    requires d <= |u| && i < |u|
    ensures i >= d ==> u[i] in u[d..]
  {
    if i >= d { assert u[d..][i - d] == u[i]; }
  }
}
