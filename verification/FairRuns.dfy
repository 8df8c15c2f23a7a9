/** Infinite runs of the streaming queue on which no goroutine is held up for ever: the
    deadline of a shutdown is then enough for it to return. */
module FairRuns {
  import opened StreamingQueue

  datatype Behaviour = Behaviour(states: nat -> State, events: nat -> Event)

  ghost predicate StepAt(b: Behaviour, n: nat) {
    Enabled(b.states(n), b.events(n)) && b.states(n + 1) == Next(b.states(n), b.events(n))
  }

  ghost predicate IsBehaviour(b: Behaviour, max: int) {
    b.states(0) == Initial(max) && forall n: nat :: StepAt(b, n)
  }

  /** What a goroutine does of its own accord once it can. */
  predicate Due(e: Event) { e.Enter? || e.Wake? || e.WatchdogFires? || e.Return? }

  ghost predicate TakenOrOff(b: Behaviour, e: Event, m: nat) {
    b.events(m) == e || !Enabled(b.states(m), e)
  }

  ghost predicate NotHeldUp(b: Behaviour, e: Event, n: nat) {
    exists m: nat :: m >= n && TakenOrOff(b, e, m)
  }

  /** Weak fairness: nothing that is due stays possible for ever without being done. */
  ghost predicate Fair(b: Behaviour) {
    forall e, n: nat | Due(e) :: NotHeldUp(b, e, n)
  }

  lemma {:induction false} AlwaysGood(b: Behaviour, max: int, n: nat)
    requires IsBehaviour(b, max)
    ensures Good(b.states(n))
  {
    hide Good, Enabled, Next;
    if n == 0 {
      InitialGood(max);
    } else {
      AlwaysGood(b, max, n - 1);
      assert StepAt(b, n - 1);
      StepKeeps(b.states(n - 1), b.events(n - 1));
    }
  }

  lemma {:induction false} AlwaysLater(b: Behaviour, max: int, n: nat, m: nat)
    requires IsBehaviour(b, max) && n <= m
    ensures Later(b.states(n), b.states(m))
    decreases m
  {
    hide Good, Enabled, Next, Later;
    if n == m {
      LaterItself(b.states(n));
    } else {
      AlwaysLater(b, max, n, m - 1);
      AlwaysGood(b, max, m - 1);
      assert StepAt(b, m - 1);
      StepLater(b.states(m - 1), b.events(m - 1));
      LaterTransitive(b.states(n), b.states(m - 1), b.states(m));
    }
  }

  // ---------------------------------------------------------------- one stage

  /** While `p` holds the event `e` is possible, and leads to `q`; everything else keeps `p` or
      leads to `q` too. */
  ghost predicate Stage(e: Event, p: State -> bool, q: State -> bool) {
    && Due(e)
    && forall s, f :: Good(s) && p(s) && Enabled(s, f) ==>
         Enabled(s, e) && (q(Next(s, f)) || (f != e && p(Next(s, f))))
  }

  /** So `q` holds at last. */
  lemma StageEnds(b: Behaviour, max: int, n: nat, e: Event, p: State -> bool, q: State -> bool) returns (m: nat)
    requires IsBehaviour(b, max) && Fair(b) && Stage(e, p, q) && p(b.states(n))
    ensures m >= n && q(b.states(m))
  {
    hide Good, Enabled, Next;
    assert NotHeldUp(b, e, n);
    var k: nat :| k >= n && TakenOrOff(b, e, k);
    m := n;
    while !q(b.states(m))
      invariant n <= m && (q(b.states(m)) || (p(b.states(m)) && m <= k))
      decreases k + 1 - m
    {
      AlwaysGood(b, max, m);
      assert StepAt(b, m);
      assert m == k ==> TakenOrOff(b, e, m);
      m := m + 1;
    }
  }

  // ------------------------------------------------------- the stages of a waiter

  ghost predicate Expired(s: State, c: nat, id: nat) { HasWaiter(s, c, id) && s.calls[c].expired }

  predicate IsWaiting(w: Waiter) { w.watchdog.Armed? && !w.phase.Finished? }

  predicate IsRemoved(w: Waiter) { w.watchdog.Gone? && w.phase.Woken? }

  ghost predicate Before(s: State, c: nat, id: nat) {
    Expired(s, c, id) && s.calls[c].waiters[id].phase.Entering?
  }

  ghost predicate Waiting(s: State, c: nat, id: nat) { Expired(s, c, id) && IsWaiting(s.calls[c].waiters[id]) }

  ghost predicate Removed(s: State, c: nat, id: nat) { Expired(s, c, id) && IsRemoved(s.calls[c].waiters[id]) }

  ghost predicate Ended(s: State, c: nat, id: nat) {
    Expired(s, c, id) && s.calls[c].waiters[id].phase.Finished?
  }

  /** Whatever happens, a waiter goes through its stages in this order. */
  lemma StageMoved(s: State, f: Event, c: nat, id: nat)
    requires Enabled(s, f) && HasWaiter(s, c, id) && WaiterOk(s, id, s.calls[c].waiters[id])
    ensures var w := s.calls[c].waiters[id];
            w.phase.Entering? || IsWaiting(w) || IsRemoved(w) || w.phase.Finished?
    ensures var w, x := s.calls[c].waiters[id], Moved(s, f, c, id);
            && (w.phase.Entering? ==>
                  if f == Enter(c, id) then IsWaiting(x) || x.phase.Finished? else x.phase.Entering?)
            && (IsWaiting(w) ==> if f == WatchdogFires(c, id) then IsRemoved(x) else IsWaiting(x) || x.phase.Finished?)
            && (IsRemoved(w) ==> if f == Wake(c, id) then x.phase.Finished? else IsRemoved(x))
            && (w.phase.Finished? ==> x.phase.Finished?)
  {
  }

  lemma WaiterStep(s: State, f: Event, c: nat, id: nat)
    requires Good(s) && Enabled(s, f) && Expired(s, c, id)
    ensures Before(s, c, id) || Waiting(s, c, id) || Removed(s, c, id) || Ended(s, c, id)
    ensures var t := Next(s, f);
            && (Before(s, c, id) ==>
                  if f == Enter(c, id) then Waiting(t, c, id) || Ended(t, c, id) else Before(t, c, id))
            && (Waiting(s, c, id) ==>
                  if f == WatchdogFires(c, id) then Removed(t, c, id) else Waiting(t, c, id) || Ended(t, c, id))
            && (Removed(s, c, id) ==> if f == Wake(c, id) then Ended(t, c, id) else Removed(t, c, id))
            && (Ended(s, c, id) ==> Ended(t, c, id))
  {
    hide Next, Enabled, Moved;
    assert CallOk(s, s.calls[c]);
    assert WaiterOk(s, id, s.calls[c].waiters[id]);
    WaiterMoved(s, f, c, id);
    CallMoved(s, f, c);
    StageMoved(s, f, c, id);
  }

  lemma WaiterCan(s: State, c: nat, id: nat)
    requires Good(s)
    ensures Before(s, c, id) ==> Enabled(s, Enter(c, id))
    ensures Waiting(s, c, id) ==> Enabled(s, WatchdogFires(c, id))
    ensures Removed(s, c, id) ==> Enabled(s, Wake(c, id))
  {
    if HasWaiter(s, c, id) {
      assert CallOk(s, s.calls[c]);
      assert WaiterOk(s, id, s.calls[c].waiters[id]);
    }
  }

  ghost function InBefore(c: nat, id: nat): State -> bool { (s: State) => Before(s, c, id) }
  ghost function InWaiting(c: nat, id: nat): State -> bool { (s: State) => Waiting(s, c, id) }
  ghost function InRemoved(c: nat, id: nat): State -> bool { (s: State) => Removed(s, c, id) }
  ghost function InEntered(c: nat, id: nat): State -> bool { (s: State) => Waiting(s, c, id) || Ended(s, c, id) }
  ghost function InCleared(c: nat, id: nat): State -> bool { (s: State) => Removed(s, c, id) || Ended(s, c, id) }
  ghost function InEnded(c: nat, id: nat): State -> bool { (s: State) => Ended(s, c, id) }

  lemma WaiterStages(c: nat, id: nat)
    ensures Stage(Enter(c, id), InBefore(c, id), InEntered(c, id))
    ensures Stage(WatchdogFires(c, id), InWaiting(c, id), InCleared(c, id))
    ensures Stage(Wake(c, id), InRemoved(c, id), InEnded(c, id))
  {
    forall s, f | Good(s) && Enabled(s, f)
      ensures Before(s, c, id) || Waiting(s, c, id) || Removed(s, c, id) ==> Expired(s, c, id)
    {}
    hide Good, Enabled, Next, Before, Waiting, Removed, Ended, Expired;
    forall s, f | Good(s) && Enabled(s, f) && Expired(s, c, id) {
      WaiterStep(s, f, c, id);
    }
    forall s | Good(s) { WaiterCan(s, c, id); }
  }

  /** An expired waiter comes to its end. */
  lemma WaiterEnds(b: Behaviour, max: int, n: nat, c: nat, id: nat) returns (m: nat)
    requires IsBehaviour(b, max) && Fair(b) && Expired(b.states(n), c, id)
    ensures m >= n && Ended(b.states(m), c, id)
  {
    AlwaysGood(b, max, n);
    assert StepAt(b, n);
    WaiterStep(b.states(n), b.events(n), c, id);
    WaiterStages(c, id);
    hide Good, Enabled, Next, Before, Waiting, Removed, Ended, Fair, IsBehaviour, Stage;
    m := n;
    if Before(b.states(m), c, id) {
      m := StageEnds(b, max, m, Enter(c, id), InBefore(c, id), InEntered(c, id));
    }
    if Waiting(b.states(m), c, id) {
      m := StageEnds(b, max, m, WatchdogFires(c, id), InWaiting(c, id), InCleared(c, id));
    }
    if Removed(b.states(m), c, id) {
      m := StageEnds(b, max, m, Wake(c, id), InRemoved(c, id), InEnded(c, id));
    }
  }

  // ------------------------------------------------------------------- the call

  /** All of these waiters come to their end, and stay there. */
  lemma WaitersEnd(b: Behaviour, max: int, n: nat, c: nat, ids: set<nat>) returns (m: nat)
    requires IsBehaviour(b, max) && Fair(b)
    requires forall id <- ids :: Expired(b.states(n), c, id)
    ensures m >= n && forall id <- ids :: Ended(b.states(m), c, id)
    decreases ids
  {
    hide Fair, IsBehaviour, Expired, Ended, Good;
    if ids == {} {
      m := n;
    } else {
      var id :| id in ids;
      var k := WaiterEnds(b, max, n, c, id);
      forall i <- ids ensures Expired(b.states(k), c, i) { StaysExpired(b, max, n, k, c, i); }
      m := WaitersEnd(b, max, k, c, ids - {id});
      StaysEnded(b, max, k, m, c, id);
    }
  }

  lemma StaysExpired(b: Behaviour, max: int, n: nat, m: nat, c: nat, id: nat)
    requires IsBehaviour(b, max) && n <= m && Expired(b.states(n), c, id)
    ensures Expired(b.states(m), c, id)
  {
    AlwaysLater(b, max, n, m);
    hide IsBehaviour;
    assert SameCall(b.states(n).calls[c], b.states(m).calls[c]);
  }

  lemma StaysEnded(b: Behaviour, max: int, n: nat, m: nat, c: nat, id: nat)
    requires IsBehaviour(b, max) && n <= m && Ended(b.states(n), c, id)
    ensures Ended(b.states(m), c, id)
  {
    AlwaysLater(b, max, n, m);
    hide IsBehaviour;
    assert SameCall(b.states(n).calls[c], b.states(m).calls[c]);
  }

  ghost predicate AllEnded(s: State, c: nat) {
    c < |s.calls| && !s.calls[c].returned && forall id <- s.calls[c].waiters :: s.calls[c].waiters[id].phase.Finished?
  }

  ghost predicate Over(s: State, c: nat) { c < |s.calls| && s.calls[c].returned }

  ghost function InAllEnded(c: nat): State -> bool { (s: State) => AllEnded(s, c) }
  ghost function InOver(c: nat): State -> bool { (s: State) => Over(s, c) }

  lemma CallStage(c: nat)
    ensures Stage(Return(c), InAllEnded(c), InOver(c))
  {
    forall s, f | Good(s) && AllEnded(s, c) && Enabled(s, f)
      ensures Enabled(s, Return(c)) && (Over(Next(s, f), c) || (f != Return(c) && AllEnded(Next(s, f), c)))
    {
      CallStep(s, f, c);
    }
  }

  lemma CallStep(s: State, f: Event, c: nat)
    requires Good(s) && AllEnded(s, c) && Enabled(s, f)
    ensures Over(Next(s, f), c) || (f != Return(c) && AllEnded(Next(s, f), c))
  {
    CallsLater(s, f);
    if f == Return(c) {
      assert Next(s, f).calls[c].returned;
    } else {
      hide Next, Good, Enabled;
      assert SameCall(s.calls[c], Next(s, f).calls[c]);
    }
  }

  /** On every fair run a shutdown whose deadline has passed returns, whatever else happens:
      no connection has to go of its own accord. */
  lemma ExpiredReturns(b: Behaviour, max: int, n: nat, c: nat) returns (m: nat)
    requires IsBehaviour(b, max) && Fair(b) && c < |b.states(n).calls| && b.states(n).calls[c].expired
    ensures m >= n && c < |b.states(m).calls| && b.states(m).calls[c].returned
  {
    hide Fair, IsBehaviour, Good;
    var ids := b.states(n).calls[c].waiters.Keys;
    m := WaitersEnd(b, max, n, c, ids);
    AlwaysLater(b, max, n, m);
    assert SameCall(b.states(n).calls[c], b.states(m).calls[c]);
    forall id <- b.states(m).calls[c].waiters ensures b.states(m).calls[c].waiters[id].phase.Finished? {
      assert Ended(b.states(m), c, id);
    }
    if !b.states(m).calls[c].returned {
      CallStage(c);
      m := StageEnds(b, max, m, Return(c), InAllEnded(c), InOver(c));
    }
  }
}
