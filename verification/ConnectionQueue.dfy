/** The bounded priority queue of connections: the least entry is first and is shut down
    when a greater one needs its place. */
module PriorityQueue {
  import opened Types

  /** A strict weak order among the different elements of `s`. Nothing is said of an
      element and itself: `Connect::operator<` holds there. */
  ghost predicate Orders<T>(less: (T, T) -> bool, s: set<T>) {
    && (forall a, b :: a in s && b in s && a != b ==> !(less(a, b) && less(b, a)))
    && (forall a, b, c :: a in s && b in s && c in s && a != b && b != c && a != c && less(a, c)
                          ==> less(a, b) || less(b, c))
  }

  ghost predicate Sorted<T>(less: (T, T) -> bool, q: seq<T>) {
    forall i, j :: 0 <= i < j < |q| ==> !less(q[j], q[i])
  }

  ghost predicate Distinct<T>(q: seq<T>) {
    forall i, j :: 0 <= i < j < |q| ==> q[i] != q[j]
  }

  ghost function Elements<T>(q: seq<T>): set<T> { set c | c in q }

  /** The first position whose entry is greater than the newcomer. */
  ghost function Place<T>(less: (T, T) -> bool, q: seq<T>, cd: T): (p: nat)
    ensures p <= |q|
    ensures p < |q| ==> less(cd, q[p])
    ensures forall i :: 0 <= i < p ==> !less(cd, q[i])
  {
    if q == [] || less(cd, q[0]) then 0
    else
      var p := Place(less, q[1..], cd);
      assert forall i :: 1 <= i < |q| ==> q[i] == q[1..][i - 1];
      p + 1
  }

  ghost function Insert<T>(less: (T, T) -> bool, q: seq<T>, cd: T): seq<T> {
    var p := Place(less, q, cd);
    q[..p] + [cd] + q[p..]
  }

  ghost function Among<T>(q: seq<T>, s: set<T>): (r: seq<T>)
    ensures Elements(r) == Elements(q) * s
    ensures |r| <= |q|
  {
    if q == [] then []
    else
      var rest := Among(q[1..], s);
      assert Elements(q) == {q[0]} + Elements(q[1..]) by { assert q == [q[0]] + q[1..]; }
      if q[0] in s then
        assert Elements([q[0]] + rest) == {q[0]} + Elements(rest);
        [q[0]] + rest
      else rest
  }

  /** The queue, whether the newcomer is in it, and who was shut down, in order. */
  datatype Outcome<T> = Outcome(queue: seq<T>, added: bool, shut: seq<T>)

  /** One registration; `gone` are the connections that are cancelled at that moment. */
  ghost function Register<T>(less: (T, T) -> bool, q: seq<T>, max: nat, gone: set<T>, cd: T): Outcome<T> {
    var cancelled := if |q| >= max then Among(q, gone) else [];
    var base := if |q| >= max then Among(q, Elements(q) - gone) else q;
    var r := Admit(less, base, max, cd);
    r.(shut := cancelled + r.shut)
  }

  /** In a full queue the newcomer takes the place of the least, unless it is the least. */
  ghost function Admit<T>(less: (T, T) -> bool, q: seq<T>, max: nat, cd: T): Outcome<T> {
    if |q| < max then Outcome(Insert(less, q, cd), true, [])
    else if Place(less, q, cd) == 0 then Outcome(q, false, [])
    else Outcome(Insert(less, q, cd)[1..], true, [q[0]])
  }

  ghost function Deregister<T>(q: seq<T>, cd: T): seq<T> {
    if q == [] then [] else if q[0] == cd then q[1..] else [q[0]] + Deregister(q[1..], cd)
  }

  // ------------------------------------------------------------------ one step

  /** Where the entries of the longer queue stood. */
  ghost function Stood(p: nat, i: int): int { if i < p then i else i - 1 }

  lemma InsertSorted<T>(less: (T, T) -> bool, q: seq<T>, cd: T)
    requires Orders(less, Elements(q + [cd])) && Sorted(less, q) && Distinct(q + [cd])
    ensures Sorted(less, Insert(less, q, cd)) && Distinct(Insert(less, q, cd))
  {
    var p, r := Place(less, q, cd), Insert(less, q, cd);
    forall k | 0 <= k < |q| ensures q[k] != cd && (p <= k ==> !less(q[k], cd)) {
      assert (q + [cd])[k] == q[k] && (q + [cd])[|q|] == cd;
      if p <= k { GreaterAfter(less, q, cd, k); }
    }
    DistinctPrefix(q, cd);
    hide Orders;
    forall i, j | 0 <= i < j < |r| ensures !less(r[j], r[i]) && r[i] != r[j] {
      if i != p && j != p {
        assert r[i] == q[Stood(p, i)] && r[j] == q[Stood(p, j)];
      } else if i == p {
        assert r[j] == q[j - 1];
      } else {
        assert r[i] == q[i];
      }
    }
  }

  lemma InsertCounts<T>(less: (T, T) -> bool, q: seq<T>, cd: T)
    ensures multiset(Insert(less, q, cd)) == multiset(q) + multiset{cd} && |Insert(less, q, cd)| == |q| + 1
  {
    var p := Place(less, q, cd);
    assert q == q[..p] + q[p..];
  }

  /** From its place on, everything is greater than the newcomer. */
  lemma GreaterAfter<T>(less: (T, T) -> bool, q: seq<T>, cd: T, k: nat)
    requires Orders(less, Elements(q + [cd])) && Sorted(less, q) && Distinct(q + [cd])
    requires Place(less, q, cd) <= k < |q|
    ensures less(cd, q[k]) && !less(q[k], cd)
  {
    hide Orders;
    var p, all := Place(less, q, cd), q + [cd];
    assert all[|q|] == cd && all[p] == q[p] && all[k] == q[k];
    assert cd in Elements(all) && q[p] in Elements(all) && q[k] in Elements(all);
    Compare(less, Elements(all), cd, q[k], q[p]);
  }

  lemma Compare<T>(less: (T, T) -> bool, s: set<T>, a: T, b: T, c: T)
    requires Orders(less, s) && a in s && b in s && c in s && a != b
    ensures !(less(a, b) && less(b, a))
    ensures b != c && a != c && less(a, c) ==> less(a, b) || less(b, c)
  {
  }

  lemma AmongSorted<T>(less: (T, T) -> bool, q: seq<T>, s: set<T>)
    requires Sorted(less, q) && Distinct(q)
    ensures Sorted(less, Among(q, s)) && Distinct(Among(q, s))
  {
    if q != [] {
      var rest := Among(q[1..], s);
      AmongSorted(less, q[1..], s);
      forall k | 0 <= k < |rest| ensures rest[k] != q[0] && !less(rest[k], q[0]) {
        assert rest[k] in Elements(rest) && rest[k] in q[1..];
      }
    }
  }

  /** Splitting by a set loses nothing. */
  lemma AmongSplit<T>(q: seq<T>, s: set<T>)
    ensures multiset(q) == multiset(Among(q, s)) + multiset(Among(q, Elements(q) - s))
  {
    AmongSplitBy(q, s, Elements(q) - s);
  }

  lemma AmongSplitBy<T>(q: seq<T>, s: set<T>, t: set<T>)
    requires forall c <- q :: c in s <==> c !in t
    ensures multiset(q) == multiset(Among(q, s)) + multiset(Among(q, t))
  {
    if q != [] {
      AmongSplitBy(q[1..], s, t);
      assert q == [q[0]] + q[1..];
    }
  }

  /** A registration keeps the queue sorted and within its bound, and whoever is not in it
      any more was shut down. */
  lemma RegisterKeeps<T>(less: (T, T) -> bool, q: seq<T>, max: nat, gone: set<T>, cd: T)
    requires Orders(less, Elements(q + [cd])) && Sorted(less, q) && Distinct(q + [cd]) && |q| <= max
    ensures var r := Register(less, q, max, gone, cd);
            && Sorted(less, r.queue) && Distinct(r.queue) && |r.queue| <= max
            && multiset(q) + multiset(if r.added then [cd] else []) == multiset(r.queue) + multiset(r.shut)
  {
    hide Insert, Place, Orders, Sorted, Distinct, Among;
    var base := if |q| >= max then Among(q, Elements(q) - gone) else q;
    var longer := Insert(less, base, cd);
    LiveKeeps(less, q, max, gone, cd);
    InsertSorted(less, base, cd);
    InsertCounts(less, base, cd);
    if |base| >= max && Place(less, base, cd) != 0 {
      FrontStays(less, base, cd);
      assert longer == [base[0]] + longer[1..];
      assert multiset(longer) == multiset{base[0]} + multiset(longer[1..]);
      TailSorted(less, longer);
    }
  }

  lemma LiveKeeps<T>(less: (T, T) -> bool, q: seq<T>, max: nat, gone: set<T>, cd: T)
    requires Orders(less, Elements(q + [cd])) && Sorted(less, q) && Distinct(q + [cd])
    ensures var live := if |q| >= max then Among(q, Elements(q) - gone) else q;
            && |live| <= |q| && Sorted(less, live)
            && Distinct(live + [cd]) && Distinct(live) && Orders(less, Elements(live + [cd]))
            && multiset(q) == multiset(live) + multiset(if |q| >= max then Among(q, gone) else [])
  {
    hide Orders, Sorted, Distinct;
    DistinctPrefix(q, cd);
    if |q| >= max {
      AmongSorted(less, q, Elements(q) - gone);
      AmongSplit(q, gone);
      BaseFits(less, q, Among(q, Elements(q) - gone), cd);
    }
  }

  lemma DistinctPrefix<T>(q: seq<T>, cd: T)
    requires Distinct(q + [cd])
    ensures Distinct(q)
  {
    assert forall i :: 0 <= i < |q| ==> (q + [cd])[i] == q[i];
  }

  lemma TailSorted<T>(less: (T, T) -> bool, q: seq<T>)
    requires q != [] && Sorted(less, q) && Distinct(q)
    ensures Sorted(less, q[1..]) && Distinct(q[1..])
  {
  }

  lemma FrontStays<T>(less: (T, T) -> bool, q: seq<T>, cd: T)
    requires q != [] && Place(less, q, cd) != 0
    ensures |Insert(less, q, cd)| == |q| + 1 && Insert(less, q, cd)[0] == q[0]
  {
  }

  lemma BaseFits<T>(less: (T, T) -> bool, q: seq<T>, base: seq<T>, cd: T)
    requires Orders(less, Elements(q + [cd])) && Distinct(q + [cd]) && Distinct(base) && Elements(base) <= Elements(q)
    ensures Orders(less, Elements(base + [cd])) && Distinct(base + [cd])
  {
    var all := q + [cd];
    assert all[|q|] == cd;
    forall k | 0 <= k < |base| ensures base[k] != cd && base[k] in Elements(all) {
      assert base[k] in Elements(base);
      var j :| 0 <= j < |q| && q[j] == base[k];
      assert all[j] == base[k];
    }
    assert Elements(base + [cd]) <= Elements(all);
  }

  // ------------------------------------------------------------------ whole runs

  datatype Event<T> = Registers(cd: T, gone: set<T>) | Departs(cd: T)

  /** What a run leaves behind; `left` are the connections that deregistered while they
      were in the queue. */
  datatype State<T> = State(queue: seq<T>, refused: seq<T>, shut: seq<T>, left: seq<T>)

  ghost function After<T>(less: (T, T) -> bool, max: nat, run: seq<Event<T>>): State<T> {
    if run == [] then State([], [], [], [])
    else
      var s, e := After(less, max, run[..|run| - 1]), run[|run| - 1];
      match e
      case Registers(cd, gone) =>
        var r := Register(less, s.queue, max, gone, cd);
        State(r.queue, s.refused + if r.added then [] else [cd], s.shut + r.shut, s.left)
      case Departs(cd) =>
        State(Deregister(s.queue, cd), s.refused, s.shut, s.left + if cd in s.queue then [cd] else [])
  }

  ghost function Arrivals<T>(run: seq<Event<T>>): seq<T> {
    if run == [] then []
    else
      var e := run[|run| - 1];
      Arrivals(run[..|run| - 1]) + if e.Registers? then [e.cd] else []
  }

  lemma Before<T>(less: (T, T) -> bool, run: seq<Event<T>>)
    requires run != [] && Distinct(Arrivals(run)) && Orders(less, Elements(Arrivals(run)))
    ensures Distinct(Arrivals(run[..|run| - 1])) && Orders(less, Elements(Arrivals(run[..|run| - 1])))
  {
    var before, all := Arrivals(run[..|run| - 1]), Arrivals(run);
    assert forall k :: 0 <= k < |before| ==> all[k] == before[k];
    assert Elements(before) <= Elements(all);
  }

  /** A newcomer is not in a queue of earlier arrivals. */
  lemma Newcomer<T>(less: (T, T) -> bool, q: seq<T>, arrivals: seq<T>, cd: T)
    requires Distinct(arrivals + [cd]) && Orders(less, Elements(arrivals + [cd]))
    requires Distinct(q) && multiset(q) <= multiset(arrivals)
    ensures Distinct(q + [cd]) && Orders(less, Elements(q + [cd]))
  {
    var all := arrivals + [cd];
    forall k | 0 <= k < |q| ensures q[k] != cd && q[k] in Elements(all) {
      assert q[k] in multiset(q);
      assert q[k] in arrivals;
      var j :| 0 <= j < |arrivals| && arrivals[j] == q[k];
      assert all[j] == q[k] && all[|arrivals|] == cd;
    }
    assert all[|arrivals|] == cd;
    assert Elements(q + [cd]) <= Elements(all);
  }

  lemma {:induction false} DeregisterKeeps<T>(less: (T, T) -> bool, q: seq<T>, cd: T)
    requires Sorted(less, q) && Distinct(q)
    ensures var r := Deregister(q, cd);
            && Sorted(less, r) && Distinct(r) && |r| <= |q|
            && multiset(q) == multiset(r) + multiset(if cd in q then [cd] else [])
  {
    if q != [] {
      assert q == [q[0]] + q[1..];
      TailSorted(less, q);
      if q[0] == cd {
        assert Deregister(q, cd) == q[1..];
      } else {
        DeregisterKeeps(less, q[1..], cd);
        var rest := Deregister(q[1..], cd);
        assert cd in q <==> cd in q[1..];
        assert multiset(q) == multiset{q[0]} + multiset(q[1..]);
        assert Deregister(q, cd) == [q[0]] + rest;
        HeadSorted(less, q, rest);
      }
    }
  }

  lemma HeadSorted<T>(less: (T, T) -> bool, q: seq<T>, rest: seq<T>)
    requires q != [] && Sorted(less, q) && Distinct(q)
    requires Sorted(less, rest) && Distinct(rest) && multiset(rest) <= multiset(q[1..])
    ensures Sorted(less, [q[0]] + rest) && Distinct([q[0]] + rest)
  {
    forall k | 0 <= k < |rest| ensures rest[k] != q[0] && !less(rest[k], q[0]) {
      assert rest[k] in multiset(rest);
      assert rest[k] in q[1..];
    }
  }

  /** However connections register, are cancelled and depart: the queue is sorted and
      within its bound, and each connection is in exactly one place, so that none is shut
      down twice or while it is still in the queue. */
  lemma {:induction false} RunKeeps<T>(less: (T, T) -> bool, max: nat, run: seq<Event<T>>)
    requires Distinct(Arrivals(run)) && Orders(less, Elements(Arrivals(run)))
    ensures var s := After(less, max, run);
            && Sorted(less, s.queue) && Distinct(s.queue) && |s.queue| <= max
            && multiset(Arrivals(run))
               == multiset(s.queue) + multiset(s.refused) + multiset(s.shut) + multiset(s.left)
  {
    hide Orders, Sorted, Distinct, Register, Deregister;
    if run == [] {
      Nothing(less);
    } else {
      var before, e := run[..|run| - 1], run[|run| - 1];
      var s := After(less, max, before);
      Before(less, run);
      RunKeeps(less, max, before);
      match e
      case Registers(cd, gone) =>
        Newcomer(less, s.queue, Arrivals(before), cd);
        RegisterKeeps(less, s.queue, max, gone, cd);
        assert Arrivals(run) == Arrivals(before) + [cd];
        var r := Register(less, s.queue, max, gone, cd);
        RunKeepsRegister(s, r, Arrivals(before), cd);
      case Departs(cd) =>
        DeregisterKeeps(less, s.queue, cd);
        assert Arrivals(run) == Arrivals(before);
    }
  }

  lemma RunKeepsRegister<T>(s: State<T>, r: Outcome<T>, arrivals: seq<T>, cd: T)
    requires multiset(arrivals) == multiset(s.queue) + multiset(s.refused) + multiset(s.shut) + multiset(s.left)
    requires multiset(s.queue) + multiset(if r.added then [cd] else []) == multiset(r.queue) + multiset(r.shut)
    ensures multiset(arrivals + [cd])
         == multiset(r.queue) + multiset(s.refused + if r.added then [] else [cd]) + multiset(s.shut + r.shut)
            + multiset(s.left)
  {
    var yes, no := if r.added then [cd] else [], if r.added then [] else [cd];
    assert multiset(yes) + multiset(no) == multiset{cd};
    assert multiset(s.refused + no) == multiset(s.refused) + multiset(no);
    Regroup(multiset(s.queue), multiset(s.refused), multiset(s.shut), multiset(s.left), multiset(yes), multiset(no),
            multiset(r.queue), multiset(r.shut));
  }

  lemma Regroup<T>(q: multiset<T>, refused: multiset<T>, shut: multiset<T>, left: multiset<T>, yes: multiset<T>,
                   no: multiset<T>, q': multiset<T>, shut': multiset<T>)
    requires q + yes == q' + shut'
    ensures (q + refused + shut + left) + (yes + no) == q' + (refused + no) + (shut + shut') + left
  {
    forall x
      ensures ((q + refused + shut + left) + (yes + no))[x] == (q' + (refused + no) + (shut + shut') + left)[x]
    {
      assert (q + yes)[x] == (q' + shut')[x];
    }
  }

  lemma Nothing<T>(less: (T, T) -> bool)
    ensures Sorted(less, []) && Distinct<T>([])
  {
  }

  // --------------------------------------------------------------- the greatest

  /** All that arrived, from the least to the greatest. */
  ghost function Ranked<T>(less: (T, T) -> bool, run: seq<T>): seq<T> {
    if run == [] then [] else Insert(less, Ranked(less, run[..|run| - 1]), run[|run| - 1])
  }

  /** `a` arrived before `b`. */
  ghost predicate Precedes<T>(run: seq<T>, a: T, b: T) {
    exists m, n :: 0 <= m < n < |run| && run[m] == a && run[n] == b
  }

  /** Every entry is below the ones after it: less, or as great and an earlier arrival. */
  ghost predicate ByRank<T>(less: (T, T) -> bool, run: seq<T>, q: seq<T>) {
    forall i, j :: 0 <= i < j < |q| ==> less(q[i], q[j]) || (!less(q[j], q[i]) && Precedes(run, q[i], q[j]))
  }

  ghost function Registrations<T>(run: seq<T>): (events: seq<Event<T>>)
    ensures |events| == |run|
  {
    seq(|run|, k requires 0 <= k < |run| => Registers(run[k], {}))
  }

  ghost function Last<T>(k: nat, q: seq<T>): seq<T> { if k < |q| then q[|q| - k..] else q }

  lemma {:induction false} RankedKeeps<T>(less: (T, T) -> bool, run: seq<T>)
    requires Distinct(run) && Orders(less, Elements(run))
    ensures var u := Ranked(less, run);
            Sorted(less, u) && Distinct(u) && multiset(u) == multiset(run) && ByRank(less, run, u)
  {
    if run != [] {
      var before, cd := run[..|run| - 1], run[|run| - 1];
      var u := Ranked(less, before);
      assert run == before + [cd];
      assert Elements(before) <= Elements(run);
      RankedKeeps(less, before);
      Newcomer(less, u, before, cd);
      InsertSorted(less, u, cd);
      InsertCounts(less, u, cd);
      InsertByRank(less, before, u, cd);
    }
  }

  lemma InsertByRank<T>(less: (T, T) -> bool, before: seq<T>, u: seq<T>, cd: T)
    requires Orders(less, Elements(u + [cd])) && Sorted(less, u) && Distinct(u + [cd])
    requires ByRank(less, before, u) && multiset(u) == multiset(before)
    ensures ByRank(less, before + [cd], Insert(less, u, cd))
  {
    var p, r, run := Place(less, u, cd), Insert(less, u, cd), before + [cd];
    forall i, j | 0 <= i < j < |r|
      ensures less(r[i], r[j]) || (!less(r[j], r[i]) && Precedes(run, r[i], r[j]))
    {
      if i == p {
        GreaterAfter(less, u, cd, j - 1);
      } else {
        var a := if i < p then i else i - 1;
        assert r[i] == u[a];
        if j == p {
          EarlierThanLast(before, u, a, cd);
        } else {
          var b := if j < p then j else j - 1;
          assert r[j] == u[b];
          if !less(u[a], u[b]) { StillPrecedes(before, u[a], u[b], cd); }
        }
      }
    }
  }

  lemma EarlierThanLast<T>(before: seq<T>, u: seq<T>, a: nat, cd: T)
    requires a < |u| && multiset(u) == multiset(before)
    ensures Precedes(before + [cd], u[a], cd)
  {
    assert u[a] in multiset(u);
    assert u[a] in before;
    var m :| 0 <= m < |before| && before[m] == u[a];
    assert (before + [cd])[m] == u[a] && (before + [cd])[|before|] == cd;
  }

  lemma StillPrecedes<T>(before: seq<T>, a: T, b: T, cd: T)
    requires Precedes(before, a, b)
    ensures Precedes(before + [cd], a, b)
  {
    var m, n :| 0 <= m < n < |before| && before[m] == a && before[n] == b;
    assert (before + [cd])[m] == a && (before + [cd])[n] == b;
  }

  /** Without cancellations or departures the queue is the greatest `max` of all that
      ever registered, by rank and then by arrival. */
  lemma QueueHoldsTheGreatest<T>(less: (T, T) -> bool, max: nat, run: seq<T>)
    requires Distinct(run) && Orders(less, Elements(run))
    ensures After(less, max, Registrations(run)).queue == Last(max, Ranked(less, run))
    ensures var u := Ranked(less, run); ByRank(less, run, u) && multiset(u) == multiset(run)
  {
    RankedKeeps(less, run);
    QueueIsLast(less, max, run);
  }

  lemma {:induction false} QueueIsLast<T>(less: (T, T) -> bool, max: nat, run: seq<T>)
    requires Distinct(run) && Orders(less, Elements(run))
    ensures After(less, max, Registrations(run)).queue == Last(max, Ranked(less, run))
  {
    if run != [] {
      hide Orders, Sorted, Distinct, Register, Insert, ByRank;
      var before, cd := run[..|run| - 1], run[|run| - 1];
      assert run == before + [cd];
      DistinctPrefix(before, cd);
      OrdersPrefix(less, before, cd);
      QueueIsLast(less, max, before);
      RankedKeeps(less, before);
      assert Registrations(run)[..|run| - 1] == Registrations(before);
      Newcomer(less, Ranked(less, before), before, cd);
      RegisterLast(less, Ranked(less, before), max, cd);
    }
  }

  lemma OrdersPrefix<T>(less: (T, T) -> bool, before: seq<T>, cd: T)
    requires Orders(less, Elements(before + [cd]))
    ensures Orders(less, Elements(before))
  {
    assert Elements(before) <= Elements(before + [cd]);
  }

  lemma RegisterLast<T>(less: (T, T) -> bool, u: seq<T>, max: nat, cd: T)
    requires Orders(less, Elements(u + [cd])) && Sorted(less, u) && Distinct(u + [cd])
    ensures Register(less, Last(max, u), max, {}, cd).queue == Last(max, Insert(less, u, cd))
  {
    NobodyGone(Last(max, u));
    AdmitLast(less, u, max, cd);
    hide Admit, Last, Orders, Sorted, Distinct, Insert;
  }

  lemma AdmitLast<T>(less: (T, T) -> bool, u: seq<T>, max: nat, cd: T)
    requires Orders(less, Elements(u + [cd])) && Sorted(less, u) && Distinct(u + [cd])
    ensures Admit(less, Last(max, u), max, cd).queue == Last(max, Insert(less, u, cd))
  {
    var d := if max < |u| then |u| - max else 0;
    PlaceInLast(less, u, d, cd);
    hide Orders, Sorted, Distinct, Place;
    LastInserted(u, max, d, Place(less, u, cd), cd);
  }

  lemma PlaceInLast<T>(less: (T, T) -> bool, u: seq<T>, d: nat, cd: T)
    requires Orders(less, Elements(u + [cd])) && Sorted(less, u) && Distinct(u + [cd]) && d <= |u|
    ensures var p := Place(less, u, cd); Place(less, u[d..], cd) == if p < d then 0 else p - d
  {
    var p, q := Place(less, u, cd), u[d..];
    if p < d {
      if d < |u| { GreaterAfter(less, u, cd, d); }
      hide Orders, Sorted, Distinct;
      PlaceIs(less, q, cd, 0);
    } else {
      hide Orders, Sorted, Distinct;
      PlaceInTail(less, u, d, cd);
    }
  }

  lemma PlaceInTail<T>(less: (T, T) -> bool, u: seq<T>, d: nat, cd: T)
    requires d <= Place(less, u, cd)
    ensures Place(less, u[d..], cd) == Place(less, u, cd) - d
  {
    if d > 0 {
      PlaceInTail(less, u[1..], d - 1, cd);
      assert u[1..][d - 1..] == u[d..];
    } else {
      assert u[0..] == u;
    }
  }

  lemma LastInserted<T>(u: seq<T>, max: nat, d: nat, p: nat, cd: T)
    requires p <= |u| && d == if max < |u| then |u| - max else 0
    ensures var longer := u[..p] + [cd] + u[p..];
            && (p <= d && |u| >= max ==> Last(max, longer) == u[d..])
            && (p > d && |u| >= max ==> Last(max, longer) == (u[d..][..p - d] + [cd] + u[d..][p - d..])[1..])
            && (|u| < max ==> Last(max, longer) == longer)
  {
    if p > d && |u| >= max {
      assert u[d..][..p - d] + [cd] + u[d..][p - d..] == (u[..p] + [cd] + u[p..])[d..];
    }
  }

  lemma NobodyGone<T>(q: seq<T>)
    ensures Among(q, {}) == [] && Among(q, Elements(q) - {}) == q
  {
    EverybodyAmong(q, Elements(q) - {});
    NobodyAmong(q);
  }

  lemma NobodyAmong<T>(q: seq<T>)
    ensures Among(q, {}) == []
  {
  }

  lemma EverybodyAmong<T>(q: seq<T>, s: set<T>)
    requires Elements(q) <= s
    ensures Among(q, s) == q
  {
    if q != [] {
      assert q[0] in Elements(q);
      assert forall c <- q[1..] :: c in Elements(q);
      EverybodyAmong(q[1..], s);
    }
  }

  lemma PlaceIs<T>(less: (T, T) -> bool, q: seq<T>, cd: T, p: nat)
    requires p <= |q| && (p < |q| ==> less(cd, q[p])) && forall i :: 0 <= i < p ==> !less(cd, q[i])
    ensures Place(less, q, cd) == p
  {
  }

  // ------------------------------------------------------------------ the class

  /** A connection; shutting it down leaves it to notice that it was cancelled. */
  class Connection {
    const priority: nat
    const objectId: nat
    var cancelled: bool
    var shutdowns: nat

    constructor (priority: nat, objectId: nat)
      ensures this.priority == priority && this.objectId == objectId && !cancelled && shutdowns == 0
    {
      this.priority, this.objectId, cancelled, shutdowns := priority, objectId, false, 0;
    }

    method Shutdown()
      modifies this`shutdowns
      ensures shutdowns == old(shutdowns) + 1
    {
      shutdowns := shutdowns + 1;
    }
  }

  /** `Connect::operator<`: of two connections with one priority the newer is less. */
  predicate Less(a: Connection, b: Connection) {
    a.priority < b.priority || (a.priority == b.priority && a.objectId >= b.objectId)
  }

  /** Object identifiers are given out once, which makes the order fit for the queue. */
  lemma LessOrders(s: set<Connection>)
    requires forall a, b :: a in s && b in s && a != b ==> a.objectId != b.objectId
    ensures Orders(Less, s)
  {
  }

  ghost function Cancelled(q: seq<Connection>): set<Connection>
    reads q
  {
    set c | c in q && c.cancelled
  }

  lemma AmongLast<T>(q: seq<T>, i: nat, s: set<T>)
    requires i < |q|
    ensures Among([], s) == []
    ensures Among(q[..i + 1], s) == Among(q[..i], s) + if q[i] in s then [q[i]] else []
  {
    if i > 0 {
      AmongLast(q[1..], i - 1, s);
      assert q[..i + 1][1..] == q[1..][..i] && q[..i][1..] == q[1..][..i - 1];
    }
  }

  lemma EvictedWasIn(q: seq<Connection>, max: nat, cd: Connection, c: Connection)
    ensures c !in q ==> c !in Admit(Less, q, max, cd).shut
  {
    hide Insert, Place;
  }

  /** Each of `q` was shut down as often as it stands in `shut`, and nothing else of it
      changed. */
  twostate predicate ShutDown(q: seq<Connection>, shut: seq<Connection>)
    reads q
  {
    forall c <- q :: c.cancelled == old(c.cancelled) && c.shutdowns == old(c.shutdowns) + multiset(shut)[c]
  }

  class ConnectionQueue {
    var queue: seq<Connection>
    const max: nat

    constructor (max: nat)
      ensures this.max == max && queue == []
    {
      this.max, queue := max, [];
    }

    /** Drops the cancelled connections and shuts each of them down. */
    method EraseCancelled()
      modifies this, queue
      ensures queue == Among(old(queue), Elements(old(queue)) - old(Cancelled(queue)))
      ensures ShutDown(old(queue), Among(old(queue), old(Cancelled(queue))))
    {
      ghost var gone := Cancelled(queue);
      ghost var live := Elements(queue) - gone;
      var kept: seq<Connection> := [];
      hide Among;
      for i := 0 to |queue|
        invariant queue == old(queue)
        invariant kept == Among(queue[..i], live)
        invariant ShutDown(queue, Among(queue[..i], gone))
      {
        var connection := queue[i];
        AmongLast(queue, i, live);
        AmongLast(queue, i, gone);
        if connection.cancelled {
          connection.Shutdown();
        } else {
          kept := kept + [connection];
        }
      }
      assert queue[..|queue|] == queue;
      queue := kept;
    }

    method FindGreater(cd: Connection) returns (p: nat)
      ensures p == Place(Less, queue, cd)
    {
      p := 0;
      while p < |queue| && !Less(cd, queue[p])
        invariant p <= |queue| && forall i :: 0 <= i < p ==> !Less(cd, queue[i])
      {
        p := p + 1;
      }
      PlaceIs(Less, queue, cd, p);
    }

    /** Only a full queue is cleared of its cancelled connections. */
    method MakeRoom() returns (ghost cancelled: seq<Connection>)
      modifies this, queue
      ensures cancelled == if |old(queue)| >= max then Among(old(queue), old(Cancelled(queue))) else []
      ensures queue
           == if |old(queue)| >= max then Among(old(queue), Elements(old(queue)) - old(Cancelled(queue)))
              else old(queue)
      ensures (forall k :: 0 <= k < |queue| ==> queue[k] in old(queue)) && ShutDown(old(queue), cancelled)
    {
      cancelled := [];
      if |queue| >= max {
        cancelled := Among(queue, Cancelled(queue));
        EraseCancelled();
        assert forall k :: 0 <= k < |queue| ==> queue[k] in Elements(queue);
      }
    }

    method InsertAndEvict(cd: Connection, p: nat)
      requires 0 < p <= |queue|
      modifies this, queue[0]
      ensures queue == (old(queue)[..p] + [cd] + old(queue)[p..])[1..]
      ensures old(queue[0]).cancelled == old(queue[0].cancelled)
      ensures old(queue[0]).shutdowns == old(queue[0].shutdowns) + 1
    {
      queue := queue[..p] + [cd] + queue[p..];
      queue[0].Shutdown();
      queue := queue[1..];
    }

    method FindAndInsert(cd: Connection) returns (added: bool)
      modifies this, queue
      ensures var r := Admit(Less, old(queue), max, cd);
              added == r.added && queue == r.queue && ShutDown(old(queue), r.shut)
    {
      hide Place;
      added := false;
      var p := FindGreater(cd);
      if |queue| >= max {
        if p != 0 {
          InsertAndEvict(cd, p);
          added := true;
        }
      } else {
        queue := queue[..p] + [cd] + queue[p..];
        added := true;
      }
    }

    /** A null pointer throws and changes nothing. */
    method RegisterConnection(cd: Connection?) returns (status: Status, added: bool)
      modifies this, queue
      ensures cd == null ==>
                status == InvalidArgument && !added && queue == old(queue) && ShutDown(old(queue), [])
      ensures cd != null ==>
                var r := Register<Connection>(Less, old(queue), max, old(Cancelled(queue)), cd);
                status == Ok && added == r.added && queue == r.queue && ShutDown(old(queue), r.shut)
    {
      if cd == null { return InvalidArgument, false; }
      added := RegisterCallData(cd);
      status := Ok;
    }

    method RegisterCallData(cd: Connection) returns (added: bool)
      modifies this, queue
      ensures var r := Register(Less, old(queue), max, old(Cancelled(queue)), cd);
              added == r.added && queue == r.queue && ShutDown(old(queue), r.shut)
    {
      hide Among, Cancelled, Admit, Elements, Less;
      ghost var cancelled := MakeRoom();
      label cleared:
      ghost var base, was := queue, old(queue);
      added := FindAndInsert(cd);
      ghost var shut := Admit(Less, base, max, cd).shut;
      assert multiset(cancelled + shut) == multiset(cancelled) + multiset(shut);
      forall c: Connection | c in was
        ensures c.cancelled == old(c.cancelled) && c.shutdowns == old(c.shutdowns) + multiset(cancelled + shut)[c]
      {
        EvictedWasIn(base, max, cd, c);
      }
    }

    method DeregisterConnection(cd: Connection?)
      modifies this
      ensures queue == if cd == null then old(queue) else Deregister(old(queue), cd)
    {
      var i := 0;
      while i < |queue| && queue[i] != cd
        invariant i <= |queue| && queue == old(queue)
        invariant cd != null ==> Deregister(queue, cd) == queue[..i] + Deregister(queue[i..], cd)
        invariant cd !in queue[..i]
      {
        assert queue[i..][1..] == queue[i + 1..];
        i := i + 1;
      }
      if i < |queue| {
        queue := queue[..i] + queue[i + 1..];
      }
    }
  }
}
