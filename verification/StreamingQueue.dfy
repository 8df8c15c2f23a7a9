/** The streaming connection queue: a lock, one condition variable, a channel of one hundred
    updates per connection, and a watchdog per connection that is being shut down. Each
    event is what one goroutine does between taking the lock and giving it up. */
module StreamingQueue {
  import opened Types

  const CAPACITY := 100

  datatype Update = ValueUpdate(text: string) | OtherUpdate(text: string)

  /** A connection object. It outlives its registration: whoever holds it may still read
      from its channel. `sent` and `taken` are everything that ever went in and came out. */
  datatype Conn = Conn(owner: nat, reads_: string -> bool, buffer: seq<Update>, sent: seq<Update>,
                       taken: seq<Update>, closed: nat)

  /** Where a `shutdownConnection` is: not yet under the lock, waiting on the condition,
      woken and about to look again, or done. */
  datatype Phase = Entering | Asleep | Woken | Finished
  datatype Watchdog = NotStarted | Armed | Gone
  datatype Waiter = Waiter(phase: Phase, watchdog: Watchdog)

  /** A `shutdown` or `shutdownOwner` with a goroutine for each connection it found. */
  datatype Call = Call(everyone: bool, expired: bool, waiters: map<nat, Waiter>, returned: bool)

  datatype State = State(objects: map<nat, Conn>, live: set<nat>, nextConnID: nat, maxConnections: int,
                         shuttingDown: bool, calls: seq<Call>)

  datatype Event =
    | Register(owner: nat, reads_: string -> bool, initial: Option<Update>)
    | Deregister(id: nat)
    | Notify(update: Update, scope: string)
    | SetMax(max: int)
    | Shutdown
    | ShutdownOwner(owner: nat)
    | Enter(call: nat, id: nat)
    | Wake(call: nat, id: nat)
    | Expire(call: nat)
    | WatchdogFires(call: nat, id: nat)
    | WatchdogStops(call: nat, id: nat)
    | Return(call: nat)
    | Take(id: nat)

  datatype Refusal = Accepted(id: nat) | ShuttingDown | MaximumReached

  // ------------------------------------------------------------------- the steps

  ghost predicate HasWaiter(s: State, c: nat, id: nat) { c < |s.calls| && id in s.calls[c].waiters }

  ghost predicate Enabled(s: State, e: Event) {
    match e
    case Enter(c, id) => HasWaiter(s, c, id) && s.calls[c].waiters[id].phase.Entering? && id in s.objects
    case Wake(c, id) => HasWaiter(s, c, id) && s.calls[c].waiters[id].phase.Woken?
    case Expire(c) => c < |s.calls|
    case WatchdogFires(c, id) => HasWaiter(s, c, id) && s.calls[c].waiters[id].watchdog.Armed? && s.calls[c].expired
    case WatchdogStops(c, id) =>
      HasWaiter(s, c, id) && s.calls[c].waiters[id].watchdog.Armed? && s.calls[c].waiters[id].phase.Finished?
    case Return(c) =>
      c < |s.calls| && !s.calls[c].returned
      && forall id <- s.calls[c].waiters :: s.calls[c].waiters[id].phase.Finished?
    case Take(id) => id in s.objects && s.objects[id].buffer != []
    case _ => true
  }

  function Admission(s: State): Refusal {
    if s.shuttingDown then ShuttingDown
    else if s.maxConnections > 0 && |s.live| >= s.maxConnections then MaximumReached
    else Accepted(s.nextConnID + 1)
  }

  /** A send that does not wait: a full channel drops the update. */
  function Offer(c: Conn, u: Update): Conn {
    if |c.buffer| < CAPACITY then c.(buffer := c.buffer + [u], sent := c.sent + [u]) else c
  }

  predicate MayRead(c: Conn, u: Update, scope: string) {
    !(u.ValueUpdate? && scope != "" && !c.reads_(scope))
  }

  function Notified(c: Conn, u: Update, scope: string): Conn {
    if MayRead(c, u, scope) then Offer(c, u) else c
  }

  function NewConn(owner: nat, reads_: string -> bool, initial: Option<Update>): Conn {
    var c := Conn(owner, reads_, [], [], [], 0);
    if initial.Some? then Offer(c, initial.value) else c
  }

  /** A broadcast on the condition: whoever sleeps will look again. */
  function Roused(w: Waiter): Waiter { if w.phase.Asleep? then w.(phase := Woken) else w }

  function RousedCall(c: Call): Call {
    c.(waiters := map id <- c.waiters :: Roused(c.waiters[id]))
  }

  function Broadcast(calls: seq<Call>): seq<Call> {
    seq(|calls|, c requires 0 <= c < |calls| => RousedCall(calls[c]))
  }

  function WithWaiter(s: State, c: nat, id: nat, w: Waiter): seq<Call>
    requires c < |s.calls|
  {
    s.calls[c := s.calls[c].(waiters := s.calls[c].waiters[id := w])]
  }

  function NewCall(everyone: bool, ids: set<nat>): Call {
    Call(everyone, false, map id <- ids :: Waiter(Entering, NotStarted), false)
  }

  function OwnedBy(s: State, owner: nat): set<nat> {
    set id | id in s.live && id in s.objects && s.objects[id].owner == owner
  }

  ghost function Next(s: State, e: Event): State
    requires Enabled(s, e)
  {
    match e
    case Register(owner, reads_, initial) =>
      var r := Admission(s);
      if r.Accepted? then
        s.(objects := s.objects[r.id := NewConn(owner, reads_, initial)], live := s.live + {r.id}, nextConnID := r.id)
      else s
    case Deregister(id) => if id in s.live then s.(live := s.live - {id}, calls := Broadcast(s.calls)) else s
    case Notify(u, scope) =>
      s.(objects := map id <- s.objects :: if id in s.live then Notified(s.objects[id], u, scope) else s.objects[id])
    case SetMax(max) => s.(maxConnections := max)
    case Shutdown => s.(shuttingDown := true, calls := s.calls + [NewCall(true, s.live)])
    case ShutdownOwner(owner) => s.(calls := s.calls + [NewCall(false, OwnedBy(s, owner))])
    case Enter(c, id) =>
      var o := s.objects[id];
      s.(objects := s.objects[id := o.(closed := if o.closed == 0 then 1 else o.closed)],
         calls := WithWaiter(s, c, id, Waiter(if id in s.live then Asleep else Finished, Armed)))
    case Wake(c, id) =>
      s.(calls := WithWaiter(s, c, id, s.calls[c].waiters[id].(phase := if id in s.live then Asleep else Finished)))
    case Expire(c) => s.(calls := s.calls[c := s.calls[c].(expired := true)])
    case WatchdogFires(c, id) =>
      s.(live := s.live - {id}, calls := Broadcast(WithWaiter(s, c, id, s.calls[c].waiters[id].(watchdog := Gone))))
    case WatchdogStops(c, id) => s.(calls := WithWaiter(s, c, id, s.calls[c].waiters[id].(watchdog := Gone)))
    case Return(c) => s.(calls := s.calls[c := s.calls[c].(returned := true)])
    case Take(id) =>
      var o := s.objects[id];
      s.(objects := s.objects[id := o.(buffer := o.buffer[1..], taken := o.taken + [o.buffer[0]])])
  }

  function Initial(max: int): State { State(map[], {}, 0, max, false, []) }

  /** The state after a run, if every event of it could happen. */
  ghost function After(s: State, run: seq<Event>): Option<State> {
    if run == [] then Some(s)
    else
      match After(s, run[..|run| - 1])
      case None => None
      case Some(t) => if Enabled(t, run[|run| - 1]) then Some(Next(t, run[|run| - 1])) else None
  }

  // ---------------------------------------------------------------- the invariant

  ghost predicate ConnOk(c: Conn) {
    c.closed <= 1 && |c.buffer| <= CAPACITY && c.sent == c.taken + c.buffer
  }

  /** Asleep means that the connection is still there, so its removal will broadcast. */
  ghost predicate WaiterOk(s: State, id: nat, w: Waiter) {
    && id in s.objects
    && (w.phase.Entering? <==> w.watchdog.NotStarted?)
    && (!w.phase.Entering? ==> s.objects[id].closed == 1)
    && (w.phase.Asleep? ==> id in s.live)
    && (w.phase.Finished? ==> id !in s.live)
    && (w.watchdog.Gone? ==> id !in s.live)
  }

  ghost predicate CallOk(s: State, c: Call) {
    && (c.everyone ==> s.shuttingDown && s.live <= c.waiters.Keys)
    && (c.returned ==> forall id <- c.waiters :: c.waiters[id].phase.Finished?)
    && forall id <- c.waiters :: WaiterOk(s, id, c.waiters[id])
  }

  ghost predicate Good(s: State) {
    && s.live <= s.objects.Keys
    && (forall id <- s.objects :: 0 < id <= s.nextConnID && ConnOk(s.objects[id]))
    && forall c :: 0 <= c < |s.calls| ==> CallOk(s, s.calls[c])
  }

  /** A call is untouched by a step that keeps its connections where they are. */
  lemma CallFramed(s: State, t: State, c: Call)
    requires CallOk(s, c)
    requires forall id <- c.waiters :: id in t.objects && (id in s.live <==> id in t.live)
    requires forall id <- c.waiters :: s.objects[id].closed == 1 ==> t.objects[id].closed == 1
    requires c.everyone ==> t.shuttingDown && t.live <= c.waiters.Keys
    ensures CallOk(t, c)
  {
  }

  /** Removing connections and broadcasting leaves nobody asleep for nothing. */
  lemma BroadcastKeeps(s: State, t: State, c: Call)
    requires CallOk(s, c)
    requires t.objects == s.objects && t.live <= s.live && t.shuttingDown == s.shuttingDown
    ensures CallOk(t, RousedCall(c))
  {
    var r := RousedCall(c);
    forall id <- r.waiters ensures WaiterOk(t, id, r.waiters[id]) { assert WaiterOk(s, id, c.waiters[id]); }
    assert r.waiters.Keys == c.waiters.Keys;
  }

  /** One waiter moves on. */
  lemma WaiterMoves(s: State, c: Call, id: nat, w: Waiter)
    requires CallOk(s, c) && id in c.waiters && WaiterOk(s, id, w)
    requires c.waiters[id].phase.Finished? ==> w.phase.Finished?
    ensures CallOk(s, c.(waiters := c.waiters[id := w]))
  {
    var r := c.(waiters := c.waiters[id := w]);
    forall i <- r.waiters ensures WaiterOk(s, i, r.waiters[i]) { assert i != id ==> WaiterOk(s, i, c.waiters[i]); }
    assert c.waiters.Keys <= r.waiters.Keys;
  }

  lemma RegisterKeeps(s: State, e: Event)
    requires Good(s) && e.Register?
    ensures Good(Next(s, e))
  {
    var t := Next(s, e);
    forall c | 0 <= c < |s.calls| ensures CallOk(t, s.calls[c]) {
      assert CallOk(s, s.calls[c]);
      forall id <- s.calls[c].waiters ensures id in s.objects { assert WaiterOk(s, id, s.calls[c].waiters[id]); }
      CallFramed(s, t, s.calls[c]);
    }
  }

  lemma DeregisterKeeps(s: State, e: Event)
    requires Good(s) && e.Deregister?
    ensures Good(Next(s, e))
  {
    hide CallOk, ConnOk;
    var t := Next(s, e);
    if e.id in s.live {
      forall c | 0 <= c < |t.calls| ensures CallOk(t, t.calls[c]) { BroadcastKeeps(s, t, s.calls[c]); }
    }
  }

  lemma ChannelsKeep(s: State, e: Event)
    requires Good(s) && Enabled(s, e) && (e.Notify? || e.Take?)
    ensures Good(Next(s, e))
  {
    var t := Next(s, e);
    assert t.objects.Keys == s.objects.Keys;
    forall id <- t.objects ensures ConnOk(t.objects[id]) && t.objects[id].closed == s.objects[id].closed {
      assert ConnOk(s.objects[id]);
      if e.Take? { TakeKeeps(s.objects[id]); }
    }
    hide ConnOk, Notified;
    forall c | 0 <= c < |s.calls| ensures CallOk(t, s.calls[c]) {
      assert CallOk(s, s.calls[c]);
      forall id <- s.calls[c].waiters ensures id in s.objects { assert WaiterOk(s, id, s.calls[c].waiters[id]); }
      CallFramed(s, t, s.calls[c]);
    }
  }

  lemma TakeKeeps(c: Conn)
    requires ConnOk(c)
    ensures c.buffer != [] ==> ConnOk(c.(buffer := c.buffer[1..], taken := c.taken + [c.buffer[0]]))
  {
    if c.buffer != [] { assert c.buffer == [c.buffer[0]] + c.buffer[1..]; }
  }

  lemma ShutdownKeeps(s: State, e: Event)
    requires Good(s) && (e.Shutdown? || e.ShutdownOwner?)
    ensures Good(Next(s, e))
  {
    var t := Next(s, e);
    forall c | 0 <= c < |t.calls| ensures CallOk(t, t.calls[c]) {
      if c < |s.calls| {
        assert t.calls[c] == s.calls[c] && CallOk(s, s.calls[c]);
        forall id <- s.calls[c].waiters ensures id in s.objects { assert WaiterOk(s, id, s.calls[c].waiters[id]); }
        CallFramed(s, t, s.calls[c]);
      }
    }
  }

  lemma EnterKeeps(s: State, e: Event)
    requires Good(s) && Enabled(s, e) && e.Enter?
    ensures Good(Next(s, e))
  {
    var t := Next(s, e);
    assert t.objects.Keys == s.objects.Keys;
    assert ConnOk(s.objects[e.id]);
    forall id <- t.objects ensures ConnOk(t.objects[id]) { assert ConnOk(s.objects[id]); }
    hide ConnOk;
    forall c | 0 <= c < |s.calls| ensures CallOk(t, t.calls[c]) {
      assert CallOk(s, s.calls[c]);
      forall id <- s.calls[c].waiters ensures id in s.objects { assert WaiterOk(s, id, s.calls[c].waiters[id]); }
      CallFramed(s, t, s.calls[c]);
      if c == e.call {
        WaiterMoves(t, s.calls[c], e.id, t.calls[c].waiters[e.id]);
      }
    }
  }

  lemma WaitersKeep(s: State, e: Event)
    requires Good(s) && Enabled(s, e) && (e.Wake? || e.WatchdogStops?)
    ensures Good(Next(s, e))
  {
    var t := Next(s, e);
    hide ConnOk;
    forall c | 0 <= c < |s.calls| ensures CallOk(t, t.calls[c]) {
      assert CallOk(s, s.calls[c]);
      assert WaiterOk(s, e.id, s.calls[e.call].waiters[e.id]);
      CallFramed(s, t, s.calls[c]);
      if c == e.call {
        WaiterMoves(t, s.calls[c], e.id, t.calls[c].waiters[e.id]);
      }
    }
  }

  lemma WatchdogKeeps(s: State, e: Event)
    requires Good(s) && Enabled(s, e) && e.WatchdogFires?
    ensures Good(Next(s, e))
  {
    var t := Next(s, e);
    hide ConnOk;
    var w := s.calls[e.call].waiters[e.id].(watchdog := Gone);
    forall c | 0 <= c < |s.calls| ensures CallOk(t, t.calls[c]) {
      BroadcastKeeps(s, t, s.calls[c]);
      if c == e.call {
        assert CallOk(s, s.calls[c]);
        assert WaiterOk(s, e.id, s.calls[c].waiters[e.id]);
        WaiterMoves(t, RousedCall(s.calls[c]), e.id, Roused(w));
        assert t.calls[c].waiters == RousedCall(s.calls[c]).waiters[e.id := Roused(w)];
      }
    }
  }

  lemma CallsKeep(s: State, e: Event)
    requires Good(s) && Enabled(s, e) && (e.SetMax? || e.Expire? || e.Return?)
    ensures Good(Next(s, e))
  {
    var t := Next(s, e);
    hide ConnOk;
    forall c | 0 <= c < |s.calls| ensures CallOk(t, t.calls[c]) {
      assert CallOk(s, s.calls[c]);
      CallFramed(s, t, s.calls[c]);
    }
  }

  lemma StepKeeps(s: State, e: Event)
    requires Good(s) && Enabled(s, e)
    ensures Good(Next(s, e))
  {
    hide Good, Enabled, Next;
    match e
    case Register(_, _, _) => RegisterKeeps(s, e);
    case Deregister(_) => DeregisterKeeps(s, e);
    case Notify(_, _) => ChannelsKeep(s, e);
    case Take(_) => ChannelsKeep(s, e);
    case Shutdown => ShutdownKeeps(s, e);
    case ShutdownOwner(_) => ShutdownKeeps(s, e);
    case Enter(_, _) => EnterKeeps(s, e);
    case Wake(_, _) => WaitersKeep(s, e);
    case WatchdogStops(_, _) => WaitersKeep(s, e);
    case WatchdogFires(_, _) => WatchdogKeeps(s, e);
    case SetMax(_) => CallsKeep(s, e);
    case Expire(_) => CallsKeep(s, e);
    case Return(_) => CallsKeep(s, e);
  }

  lemma {:induction false} RunKeeps(max: int, run: seq<Event>)
    requires After(Initial(max), run).Some?
    ensures Good(After(Initial(max), run).value)
  {
    hide Good, Enabled, Next;
    if run == [] {
      InitialGood(max);
    } else {
      RunKeeps(max, run[..|run| - 1]);
      StepKeeps(After(Initial(max), run[..|run| - 1]).value, run[|run| - 1]);
    }
  }

  lemma InitialGood(max: int)
    ensures Good(Initial(max))
  {
  }

  // ----------------------------------------------------------------- whole runs

  lemma {:induction false} AfterBoth(s: State, a: seq<Event>, b: seq<Event>)
    ensures After(s, a + b) == if After(s, a).Some? then After(After(s, a).value, b) else None
  {
    hide Enabled, Next;
    if b == [] {
      assert a + b == a;
    } else {
      AfterBoth(s, a, b[..|b| - 1]);
      assert (a + b)[..|a + b| - 1] == a + b[..|b| - 1];
    }
  }

  /** What never changes along a run. */
  ghost predicate Later(s: State, t: State) {
    && s.nextConnID <= t.nextConnID
    && (forall id <- s.objects :: id in t.objects && SameConn(s.objects[id], t.objects[id]))
    && (forall id <- t.live :: id in s.live || id !in s.objects)
    && (s.shuttingDown ==> t.shuttingDown && t.live <= s.live)
    && |s.calls| <= |t.calls|
    && forall c :: 0 <= c < |s.calls| ==> SameCall(s.calls[c], t.calls[c])
  }

  ghost predicate SameConn(a: Conn, b: Conn) {
    && a.owner == b.owner && a.reads_ == b.reads_ && a.sent <= b.sent && a.taken <= b.taken && a.closed <= b.closed
  }

  ghost predicate SameCall(a: Call, b: Call) {
    && a.everyone == b.everyone && a.waiters.Keys == b.waiters.Keys && (a.expired ==> b.expired)
    && (a.returned ==> b.returned)
    && forall id <- a.waiters :: a.waiters[id].phase.Finished? ==> b.waiters[id].phase.Finished?
  }

  lemma StepLater(s: State, e: Event)
    requires Good(s) && Enabled(s, e)
    ensures Later(s, Next(s, e))
  {
    ConnsLater(s, e);
    CallsLater(s, e);
    hide SameConn, SameCall;
  }

  lemma ConnsLater(s: State, e: Event)
    requires Good(s) && Enabled(s, e)
    ensures var t := Next(s, e);
            && s.nextConnID <= t.nextConnID
            && (forall id <- s.objects :: id in t.objects && SameConn(s.objects[id], t.objects[id]))
            && (forall id <- t.live :: id in s.live || id !in s.objects)
            && (s.shuttingDown ==> t.shuttingDown && t.live <= s.live)
  {
    LiveLater(s, e);
    var t := Next(s, e);
    hide Good, Next, SameConn, Enabled;
    forall id <- s.objects ensures id in t.objects && SameConn(s.objects[id], t.objects[id]) { ConnLater(s, e, id); }
  }

  lemma LiveLater(s: State, e: Event)
    requires Good(s) && Enabled(s, e)
    ensures var t := Next(s, e);
            && s.nextConnID <= t.nextConnID
            && (forall id <- t.live :: id in s.live || id !in s.objects)
            && (s.shuttingDown ==> t.shuttingDown && t.live <= s.live)
  {
    hide CallOk, ConnOk, Broadcast, WithWaiter;
  }

  lemma ConnLater(s: State, e: Event, id: nat)
    requires Good(s) && Enabled(s, e) && id in s.objects
    ensures id in Next(s, e).objects && SameConn(s.objects[id], Next(s, e).objects[id])
  {
    hide CallOk, Broadcast, WithWaiter;
    assert 0 < id <= s.nextConnID;
  }

  lemma CallsLater(s: State, e: Event)
    requires Good(s) && Enabled(s, e)
    ensures var t := Next(s, e);
            |s.calls| <= |t.calls| && forall c :: 0 <= c < |s.calls| ==> SameCall(s.calls[c], t.calls[c])
  {
    var t := Next(s, e);
    hide SameCall, ConnOk, MayRead, Notified, NewConn;
    forall c | 0 <= c < |s.calls| ensures c < |t.calls| && SameCall(s.calls[c], t.calls[c]) {
      CallLater(s, e, c);
    }
  }

  /** What a step makes of one waiter. */
  ghost function Moved(s: State, f: Event, c: nat, id: nat): Waiter
    requires HasWaiter(s, c, id)
  {
    var w := s.calls[c].waiters[id];
    match f
    case Enter(_, _) => if f == Enter(c, id) then Waiter(if id in s.live then Asleep else Finished, Armed) else w
    case Wake(_, _) => if f == Wake(c, id) then w.(phase := if id in s.live then Asleep else Finished) else w
    case WatchdogFires(_, _) => Roused(if f == WatchdogFires(c, id) then w.(watchdog := Gone) else w)
    case WatchdogStops(_, _) => if f == WatchdogStops(c, id) then w.(watchdog := Gone) else w
    case Deregister(i) => if i in s.live then Roused(w) else w
    case _ => w
  }

  lemma WaiterMoved(s: State, f: Event, c: nat, id: nat)
    requires Enabled(s, f) && HasWaiter(s, c, id)
    ensures HasWaiter(Next(s, f), c, id) && Next(s, f).calls[c].waiters[id] == Moved(s, f, c, id)
  {
    hide MayRead, Notified, NewConn, Admission;
    match f
    case Enter(_, _) =>
    case Wake(_, _) =>
    case WatchdogFires(_, _) =>
    case WatchdogStops(_, _) =>
    case Deregister(_) =>
    case _ =>
  }

  lemma CallMoved(s: State, e: Event, c: nat)
    requires Enabled(s, e) && c < |s.calls|
    ensures c < |Next(s, e).calls|
    ensures var a, b := s.calls[c], Next(s, e).calls[c];
            && a.everyone == b.everyone && a.waiters.Keys == b.waiters.Keys && (a.expired ==> b.expired)
            && (a.returned ==> b.returned)
  {
    hide MayRead, Notified, NewConn, Admission, Roused;
  }

  lemma CallLater(s: State, e: Event, c: nat)
    requires Enabled(s, e) && c < |s.calls|
    ensures c < |Next(s, e).calls| && SameCall(s.calls[c], Next(s, e).calls[c])
  {
    CallMoved(s, e, c);
    var a, b := s.calls[c], Next(s, e).calls[c];
    forall id | id in a.waiters && a.waiters[id].phase.Finished?
      ensures id in b.waiters && b.waiters[id].phase.Finished?
    {
      WaiterMoved(s, e, c, id);
      hide Next;
    }
    hide Next;
  }

  lemma LaterTransitive(s: State, t: State, u: State)
    requires Later(s, t) && Later(t, u)
    ensures Later(s, u)
  {
    hide SameConn, SameCall;
    forall id <- s.objects ensures id in u.objects && SameConn(s.objects[id], u.objects[id]) {
      assert SameConn(s.objects[id], t.objects[id]) && SameConn(t.objects[id], u.objects[id]);
      SameConnTransitive(s.objects[id], t.objects[id], u.objects[id]);
    }
    forall c | 0 <= c < |s.calls| ensures SameCall(s.calls[c], u.calls[c]) {
      assert SameCall(s.calls[c], t.calls[c]) && SameCall(t.calls[c], u.calls[c]);
      SameCallTransitive(s.calls[c], t.calls[c], u.calls[c]);
    }
  }

  lemma SameConnTransitive(a: Conn, b: Conn, c: Conn)
    requires SameConn(a, b) && SameConn(b, c)
    ensures SameConn(a, c)
  {
  }

  lemma SameCallTransitive(a: Call, b: Call, c: Call)
    requires SameCall(a, b) && SameCall(b, c)
    ensures SameCall(a, c)
  {
  }

  lemma {:induction false} RunLater(s: State, run: seq<Event>)
    requires Good(s) && After(s, run).Some?
    ensures Good(After(s, run).value) && Later(s, After(s, run).value)
  {
    hide Good, Enabled, Next, Later;
    if run == [] {
      LaterItself(s);
    } else {
      var t := After(s, run[..|run| - 1]).value;
      RunLater(s, run[..|run| - 1]);
      StepKeeps(t, run[|run| - 1]);
      StepLater(t, run[|run| - 1]);
      LaterTransitive(s, t, After(s, run).value);
    }
  }

  lemma LaterItself(s: State)
    ensures Later(s, s)
  {
  }

  /** Identifiers are never used again, `Done` is closed at most once, and once the queue is
      shutting down nothing is registered any more, however the run goes on. */
  lemma NothingComesBack(max: int, run: seq<Event>, more: seq<Event>)
    requires After(Initial(max), run + more).Some?
    ensures After(Initial(max), run).Some?
    ensures var s, t := After(Initial(max), run).value, After(Initial(max), run + more).value;
            && (s.shuttingDown ==> t.shuttingDown && t.live <= s.live)
            && (forall id <- s.objects :: id in t.objects && SameConn(s.objects[id], t.objects[id]))
            && (forall id <- t.live :: id in s.live || id !in s.objects)
            && (forall id <- t.objects :: t.objects[id].closed <= 1)
            && (Admission(t).Accepted? ==> Admission(t).id !in t.objects)
  {
    AfterBoth(Initial(max), run, more);
    RunKeeps(max, run);
    var s := After(Initial(max), run).value;
    RunLater(s, more);
    hide After;
  }

  /** As long as the maximum is not changed there are never more connections. */
  lemma {:induction false} WithinMaximum(max: int, run: seq<Event>)
    requires max > 0 && After(Initial(max), run).Some? && forall e <- run :: !e.SetMax?
    ensures var s := After(Initial(max), run).value; s.maxConnections == max && |s.live| <= max
  {
    hide Good, Enabled, Next;
    if run == [] {
      InitialGood(max);
    } else {
      var before, e := run[..|run| - 1], run[|run| - 1];
      WithinMaximum(max, before);
      StepWithinMaximum(After(Initial(max), before).value, e);
    }
  }

  lemma StepWithinMaximum(s: State, e: Event)
    requires Enabled(s, e) && !e.SetMax? && s.maxConnections > 0 && |s.live| <= s.maxConnections
    ensures Next(s, e).maxConnections == s.maxConnections && |Next(s, e).live| <= s.maxConnections
  {
    if Next(s, e).live <= s.live { Subset(Next(s, e).live, s.live); }
  }

  /** A shutdown that is begun when the run is `before` has a waiter for exactly the
      connections there are, or those of its owner. Once it returns they are gone for good,
      and after a full shutdown there is none at all. */
  lemma WhenReturned(max: int, before: seq<Event>, e: Event, more: seq<Event>)
    requires e.Shutdown? || e.ShutdownOwner?
    requires After(Initial(max), before + [e] + more).Some?
    ensures After(Initial(max), before).Some?
    ensures var s, t := After(Initial(max), before).value, After(Initial(max), before + [e] + more).value;
            && |s.calls| < |t.calls|
            && s.live <= s.objects.Keys
            && (forall id :: id in t.calls[|s.calls|].waiters <==>
                  id in s.live && (e.Shutdown? || s.objects[id].owner == e.owner))
            && (t.calls[|s.calls|].returned ==>
                  && (e.Shutdown? ==> t.live == {})
                  && forall id <- s.live :: e.Shutdown? || s.objects[id].owner == e.owner ==> id !in t.live)
  {
    var run := before + [e] + more;
    AfterBoth(Initial(max), before + [e], more);
    AfterBoth(Initial(max), before, [e]);
    var s := After(Initial(max), before).value;
    assert [e][..0] == [];
    assert After(s, [e]) == Some(Next(s, e));
    var u, t := Next(s, e), After(Initial(max), run).value;
    RunKeeps(max, before);
    StepKeeps(s, e);
    RunLater(u, more);
    hide After, Next;
    Returned(s, e, u, t);
  }

  lemma Returned(s: State, e: Event, u: State, t: State)
    requires (e.Shutdown? || e.ShutdownOwner?) && u == Next(s, e) && Later(u, t) && Good(t)
    ensures var ids := if e.Shutdown? then s.live else OwnedBy(s, e.owner);
            && |s.calls| < |t.calls|
            && t.calls[|s.calls|].waiters.Keys == ids
            && (t.calls[|s.calls|].returned ==> if e.Shutdown? then t.live == {} else t.live !! ids)
  {
    var n := |s.calls|;
    var call := t.calls[n];
    assert SameCall(u.calls[n], call) && CallOk(t, call);
    if call.returned {
      forall id <- call.waiters ensures id !in t.live { assert WaiterOk(t, id, call.waiters[id]); }
    }
  }

  /** A watchdog that fires after its waiter is done removes nothing; whoever it wakes goes
      back to sleep. */
  lemma LateWatchdog(s: State, c: nat, id: nat)
    requires Good(s) && Enabled(s, WatchdogFires(c, id)) && s.calls[c].waiters[id].phase.Finished?
    ensures var t := Next(s, WatchdogFires(c, id));
            && t.live == s.live && t.objects == s.objects && |t.calls| == |s.calls|
            && forall d: nat, i: nat :: HasWaiter(s, d, i) && s.calls[d].waiters[i].phase.Asleep? ==>
                 && Enabled(t, Wake(d, i))
                 && Next(t, Wake(d, i)).calls[d].waiters[i] == s.calls[d].waiters[i]
  {
    var t := Next(s, WatchdogFires(c, id));
    assert CallOk(s, s.calls[c]);
    assert WaiterOk(s, id, s.calls[c].waiters[id]);
    forall d: nat, i: nat | HasWaiter(s, d, i) && s.calls[d].waiters[i].phase.Asleep?
      ensures Enabled(t, Wake(d, i)) && Next(t, Wake(d, i)).calls[d].waiters[i] == s.calls[d].waiters[i]
    {
      assert CallOk(s, s.calls[d]);
      assert WaiterOk(s, i, s.calls[d].waiters[i]);
    }
  }

  // ------------------------------------------------------------------- progress

  /** What moves a waiter of an expired call on. */
  ghost function Move(s: State, c: nat, id: nat): Event
    requires HasWaiter(s, c, id)
  {
    match s.calls[c].waiters[id].phase
    case Entering => Enter(c, id)
    case Asleep => WatchdogFires(c, id)
    case _ => Wake(c, id)
  }

  ghost function Rank(s: State, c: nat, id: nat): nat
    requires HasWaiter(s, c, id)
  {
    match s.calls[c].waiters[id].phase
    case Entering => 4
    case Woken => if id in s.live then 3 else 1
    case Asleep => 2
    case Finished => 0
  }

  lemma MoveProgresses(s: State, c: nat, id: nat)
    requires Good(s) && HasWaiter(s, c, id) && s.calls[c].expired && Rank(s, c, id) > 0
    ensures Enabled(s, Move(s, c, id))
    ensures var t := Next(s, Move(s, c, id));
            HasWaiter(t, c, id) && Rank(t, c, id) < Rank(s, c, id) && t.calls[c].returned == s.calls[c].returned
  {
    assert CallOk(s, s.calls[c]);
    assert WaiterOk(s, id, s.calls[c].waiters[id]);
  }

  lemma Once(s: State, e: Event)
    requires Enabled(s, e)
    ensures After(s, [e]) == Some(Next(s, e))
  {
    assert [e][..0] == [];
  }

  lemma Subset(a: set<nat>, b: set<nat>)
    requires a <= b
    ensures |a| <= |b|
  {
    if a != {} {
      var x :| x in a;
      Subset(a - {x}, b - {x});
    }
  }

  // -------------------------------------------------------------------- delivery

  /** What concerns one connection: the broadcasts made while it is registered, and its own
      reads. */
  datatype Local = Offered(update: Update, scope: string) | Taken

  ghost function LocalOf(s: State, e: Event, id: nat): seq<Local> {
    if e.Notify? && id in s.live then [Offered(e.update, e.scope)]
    else if e == Event.Take(id) then [Taken]
    else []
  }

  ghost function Own(s: State, run: seq<Event>, id: nat): seq<Local> {
    if run == [] || After(s, run[..|run| - 1]).None? then []
    else
      Own(s, run[..|run| - 1], id) + LocalOf(After(s, run[..|run| - 1]).value, run[|run| - 1], id)
  }

  ghost function Reacts(c: Conn, l: Local): Conn {
    match l
    case Offered(u, scope) => Notified(c, u, scope)
    case Taken => if c.buffer == [] then c else c.(buffer := c.buffer[1..], taken := c.taken + [c.buffer[0]])
  }

  ghost function Replay(c: Conn, own: seq<Local>): Conn {
    if own == [] then c else Reacts(Replay(c, own[..|own| - 1]), own[|own| - 1])
  }

  ghost predicate SameChannel(a: Conn, b: Conn) {
    a.owner == b.owner && a.reads_ == b.reads_ && a.buffer == b.buffer && a.sent == b.sent && a.taken == b.taken
  }

  lemma StepLocal(s: State, e: Event, id: nat)
    requires Good(s) && Enabled(s, e) && id in s.objects
    ensures id in Next(s, e).objects
    ensures SameChannel(Next(s, e).objects[id], Replay(s.objects[id], LocalOf(s, e, id)))
  {
    hide CallOk, Broadcast, WithWaiter, Notified;
    assert 0 < id <= s.nextConnID;
    var own := LocalOf(s, e, id);
    if own != [] { assert own[..0] == []; }
  }

  lemma ReplaySame(a: Conn, b: Conn, own: seq<Local>)
    requires SameChannel(a, b)
    ensures SameChannel(Replay(a, own), Replay(b, own))
  {
  }

  lemma {:induction false} ReplayBoth(c: Conn, a: seq<Local>, b: seq<Local>)
    ensures Replay(c, a + b) == Replay(Replay(c, a), b)
  {
    if b == [] {
      assert a + b == a;
    } else {
      ReplayBoth(c, a, b[..|b| - 1]);
      assert (a + b)[..|a + b| - 1] == a + b[..|b| - 1];
    }
  }

  /** In every run a channel is what its own history makes of it: nothing else that happens,
      no other consumer and no full buffer but its own, has any effect on it. */
  lemma {:induction false} ChannelFollowsOwnHistory(s: State, run: seq<Event>, id: nat)
    requires Good(s) && After(s, run).Some? && id in s.objects
    ensures id in After(s, run).value.objects
    ensures SameChannel(After(s, run).value.objects[id], Replay(s.objects[id], Own(s, run, id)))
  {
    hide Good, Enabled, Next, LocalOf, Reacts;
    if run != [] {
      var before, e := run[..|run| - 1], run[|run| - 1];
      var t := After(s, before).value;
      RunLater(s, before);
      ChannelFollowsOwnHistory(s, before, id);
      StepLocal(t, e, id);
      var own, last := Own(s, before, id), LocalOf(t, e, id);
      ReplaySame(t.objects[id], Replay(s.objects[id], own), last);
      ReplayBoth(s.objects[id], own, last);
    }
  }

  /** The broadcasts the connection may read, in order. */
  ghost function Readable(c: Conn, own: seq<Local>): seq<Update> {
    if own == [] then []
    else
      var l := own[|own| - 1];
      Readable(c, own[..|own| - 1]) + if l.Offered? && MayRead(c, l.update, l.scope) then [l.update] else []
  }

  /** `a` is what is left of `b` after dropping some elements. */
  ghost predicate InOrder(a: seq<Update>, b: seq<Update>) {
    if b == [] then a == []
    else
      || InOrder(a, b[..|b| - 1])
      || (a != [] && a[|a| - 1] == b[|b| - 1] && InOrder(a[..|a| - 1], b[..|b| - 1]))
  }

  ghost function Wanted(c: Conn, l: Local): seq<Update> {
    if l.Offered? && MayRead(c, l.update, l.scope) then [l.update] else []
  }

  /** Something is dropped only when the connection's own buffer is full. */
  lemma SentBy(c: Conn, l: Local)
    ensures var r := Reacts(c, l);
            && r.owner == c.owner && r.reads_ == c.reads_ && (r.sent == c.sent || r.sent == c.sent + Wanted(c, l))
            && (|c.buffer| < CAPACITY ==> r.sent == c.sent + Wanted(c, l))
  {
  }

  lemma WantedSame(c: Conn, d: Conn, l: Local)
    requires c.reads_ == d.reads_
    ensures Wanted(c, l) == Wanted(d, l)
  {
  }

  /** What enters the channel after its start is an in-order selection of the broadcasts it
      may read. */
  lemma {:induction false} DeliveredInOrder(c: Conn, own: seq<Local>)
    ensures var r := Replay(c, own);
            && r.owner == c.owner && r.reads_ == c.reads_
            && c.sent <= r.sent && InOrder(r.sent[|c.sent|..], Readable(c, own))
  {
    hide Reacts, Wanted;
    if own != [] {
      var before, l := own[..|own| - 1], own[|own| - 1];
      var r, q := Replay(c, own), Replay(c, before);
      DeliveredInOrder(c, before);
      SentBy(q, l);
      WantedSame(c, q, l);
      ReadableLast(c, own);
      Selected(q.sent[|c.sent|..], Readable(c, before), Wanted(c, l));
      hide InOrder, Readable;
      if r.sent != q.sent { assert r.sent[|c.sent|..] == q.sent[|c.sent|..] + Wanted(c, l); }
    }
  }

  lemma ReadableLast(c: Conn, own: seq<Local>)
    requires own != []
    ensures Readable(c, own) == Readable(c, own[..|own| - 1]) + Wanted(c, own[|own| - 1])
    ensures |Wanted(c, own[|own| - 1])| <= 1
  {
  }

  /** No broadcast found the connection's own buffer full. */
  ghost predicate NeverFull(c: Conn, own: seq<Local>) {
    own == [] || (
      && NeverFull(c, own[..|own| - 1])
      && (own[|own| - 1].Offered? ==> |Replay(c, own[..|own| - 1]).buffer| < CAPACITY))
  }

  /** ... and all of them as long as its own buffer is never full. */
  lemma {:induction false} AllDelivered(c: Conn, own: seq<Local>)
    requires NeverFull(c, own)
    ensures Replay(c, own).sent == c.sent + Readable(c, own)
  {
    hide Reacts, Wanted;
    if own != [] {
      var before, l := own[..|own| - 1], own[|own| - 1];
      AllDelivered(c, before);
      DeliveredInOrder(c, before);
      SentBy(Replay(c, before), l);
      TakenSendsNothing(Replay(c, before), l);
      WantedSame(c, Replay(c, before), l);
      ReadableLast(c, own);
    }
  }

  lemma TakenSendsNothing(c: Conn, l: Local)
    ensures l.Taken? ==> Reacts(c, l).sent == c.sent && Wanted(c, l) == []
  {
  }

  /** Whatever is in a channel was broadcast, a value only with a scope the client holds. */
  lemma {:induction false} ScopeRespected(c: Conn, own: seq<Local>, i: nat)
    requires |c.sent| <= i < |Replay(c, own).sent|
    ensures exists k :: 0 <= k < |own| && own[k].Offered? && own[k].update == Replay(c, own).sent[i]
              && (own[k].update.ValueUpdate? && own[k].scope != "" ==> c.reads_(own[k].scope))
  {
    if own != [] {
      var before, l := own[..|own| - 1], own[|own| - 1];
      var q := Replay(c, before);
      DeliveredInOrder(c, before);
      SentBy(q, l);
      if i < |q.sent| {
        ScopeRespected(c, before, i);
        var k :| 0 <= k < |before| && before[k].Offered? && before[k].update == q.sent[i]
                 && (before[k].update.ValueUpdate? && before[k].scope != "" ==> c.reads_(before[k].scope));
        assert own[k] == before[k];
      } else {
        assert own[|own| - 1].Offered?;
      }
    }
  }

  lemma Selected(a: seq<Update>, b: seq<Update>, x: seq<Update>)
    requires InOrder(a, b) && |x| <= 1
    ensures InOrder(a, b + x) && InOrder(a + x, b + x)
  {
    if x == [] {
      assert b + x == b && a + x == a;
    } else {
      assert (b + x)[..|b|] == b && (a + x)[..|a|] == a;
    }
  }

  /** A connection from its registration on: what has entered its channel is its initial
      update and then an in-order selection of the broadcasts made while it was registered,
      value updates only where its scopes allow; the consumer has a prefix of that. */
  lemma Delivery(max: int, before: seq<Event>, e: Event, run: seq<Event>)
    requires e.Register? && After(Initial(max), before + [e] + run).Some?
    ensures After(Initial(max), before).Some?
    ensures var s := After(Initial(max), before).value;
            Admission(s).Accepted? ==>
              var t, id := After(Initial(max), before + [e] + run).value, Admission(s).id;
              && id in t.objects
              && var c, own := t.objects[id], Own(Next(s, e), run, id);
              && c.taken <= c.sent && |c.sent| - |c.taken| <= CAPACITY
              && var first := if e.initial.Some? then [e.initial.value] else [];
              && first <= c.sent
              && InOrder(c.sent[|first|..], Readable(NewConn(e.owner, e.reads_, e.initial), own))
  {
    AfterBoth(Initial(max), before + [e], run);
    AfterBoth(Initial(max), before, [e]);
    var s := After(Initial(max), before).value;
    Once(s, e);
    RunKeeps(max, before);
    if Admission(s).Accepted? {
      var u, id := Next(s, e), Admission(s).id;
      StepKeeps(s, e);
      RunLater(u, run);
      ChannelFollowsOwnHistory(u, run, id);
      DeliveredInOrder(u.objects[id], Own(u, run, id));
    }
  }

  // -------------------------------------------------------------------- the queue

  class ConnectionQueue {
    var objects: map<nat, Conn>
    var live: set<nat>
    var nextConnID: nat
    var maxConnections: int
    var shuttingDown: bool
    var calls: seq<Call>

    ghost function Model(): State
      reads this
    {
      State(objects, live, nextConnID, maxConnections, shuttingDown, calls)
    }

    constructor (max: int)
      ensures Model() == Initial(max)
    {
      objects, live, nextConnID, maxConnections, shuttingDown, calls := map[], {}, 0, max, false, [];
    }

    method SetMaxConnections(max: int)
      modifies this
      ensures Model() == Next(old(Model()), SetMax(max))
    {
      maxConnections := max;
    }

    method RegisterOwnedConnection(owner: nat, reads_: string -> bool, initial: Option<Update>)
      returns (r: Refusal)
      modifies this
      ensures Model() == Next(old(Model()), Register(owner, reads_, initial)) && r == Admission(old(Model()))
    {
      if shuttingDown { return ShuttingDown; }
      if maxConnections > 0 && |live| >= maxConnections { return MaximumReached; }
      nextConnID := nextConnID + 1;
      var conn := Conn(owner, reads_, [], [], [], 0);
      if initial.Some? && |conn.buffer| < CAPACITY {
        conn := conn.(buffer := conn.buffer + [initial.value], sent := conn.sent + [initial.value]);
      }
      objects, live := objects[nextConnID := conn], live + {nextConnID};
      return Accepted(nextConnID);
    }

    method WakeEverybody()
      modifies this`calls
      ensures calls == Broadcast(old(calls))
    {
      var i := 0;
      while i < |calls|
        invariant i <= |calls| == |old(calls)|
        invariant forall k :: 0 <= k < |calls| ==>
                    calls[k] == if k < i then RousedCall(old(calls)[k]) else old(calls)[k]
      {
        calls := calls[i := calls[i].(waiters := map id <- calls[i].waiters :: Roused(calls[i].waiters[id]))];
        i := i + 1;
      }
    }

    method DeregisterConnection(id: nat)
      modifies this
      ensures Model() == Next(old(Model()), Deregister(id))
    {
      if id in live {
        live := live - {id};
        WakeEverybody();
      }
    }

    /** The range over the connections may take them in any order. */
    method NotifyUpdate(u: Update, scope: string)
      requires live <= objects.Keys
      modifies this
      ensures Model() == Next(old(Model()), Notify(u, scope))
    {
      hide Notified;
      var left := live;
      while left != {}
        invariant left <= live == old(live) && objects.Keys == old(objects).Keys
        invariant forall id <- objects ::
                    objects[id]
                    == if id in live - left then Notified(old(objects)[id], u, scope) else old(objects)[id]
        invariant nextConnID == old(nextConnID) && maxConnections == old(maxConnections)
        invariant shuttingDown == old(shuttingDown) && calls == old(calls)
        decreases left
      {
        var id :| id in left;
        left := left - {id};
        var conn := TrySend(objects[id], u, scope);
        objects := objects[id := conn];
      }
    }

    /** A connection that may not see the value, or whose channel is full, goes without. */
    method TrySend(c: Conn, u: Update, scope: string) returns (conn: Conn)
      ensures conn == Notified(c, u, scope)
    {
      conn := c;
      if u.ValueUpdate? && scope != "" && !conn.reads_(scope) { return; }
      if |conn.buffer| < CAPACITY {
        conn := conn.(buffer := conn.buffer + [u], sent := conn.sent + [u]);
      }
    }

    method BeginShutdown()
      modifies this
      ensures Model() == Next(old(Model()), Shutdown)
    {
      shuttingDown := true;
      calls := calls + [Call(true, false, map id <- live :: Waiter(Entering, NotStarted), false)];
    }

    method BeginShutdownOwner(owner: nat)
      requires live <= objects.Keys
      modifies this
      ensures Model() == Next(old(Model()), ShutdownOwner(owner))
    {
      var owned: set<nat> := {};
      var left := live;
      while left != {}
        invariant left <= live && owned == set id | id in live - left && objects[id].owner == owner
        decreases left
      {
        var id :| id in left;
        left := left - {id};
        if objects[id].owner == owner { owned := owned + {id}; }
      }
      assert owned == OwnedBy(old(Model()), owner);
      calls := calls + [Call(false, false, map id <- owned :: Waiter(Entering, NotStarted), false)];
    }

    /** `shutdownConnection` up to its first wait, or to its end. */
    method EnterShutdownConnection(c: nat, id: nat)
      requires Enabled(Model(), Enter(c, id))
      modifies this
      ensures Model() == Next(old(Model()), Enter(c, id))
    {
      if objects[id].closed == 0 {
        objects := objects[id := objects[id].(closed := 1)];
      } else {
        objects := objects[id := objects[id]];
      }
      var waiter := Waiter(Entering, Armed);
      waiter := waiter.(phase := if id !in live then Finished else Asleep);
      calls := calls[c := calls[c].(waiters := calls[c].waiters[id := waiter])];
    }

    /** The loop of `shutdownConnection` from one wait to the next, or to its end. */
    method WakeShutdownConnection(c: nat, id: nat)
      requires Enabled(Model(), Wake(c, id))
      modifies this
      ensures Model() == Next(old(Model()), Wake(c, id))
    {
      var waiter := calls[c].waiters[id];
      waiter := waiter.(phase := if id !in live then Finished else Asleep);
      calls := calls[c := calls[c].(waiters := calls[c].waiters[id := waiter])];
    }

    method ForceClose(c: nat, id: nat)
      requires Enabled(Model(), WatchdogFires(c, id))
      modifies this
      ensures Model() == Next(old(Model()), WatchdogFires(c, id))
    {
      live := live - {id};
      var waiter := calls[c].waiters[id].(watchdog := Gone);
      calls := calls[c := calls[c].(waiters := calls[c].waiters[id := waiter])];
      WakeEverybody();
    }

    method Receive(id: nat) returns (u: Update)
      requires Enabled(Model(), Event.Take(id))
      modifies this
      ensures Model() == Next(old(Model()), Event.Take(id)) && u == old(objects)[id].buffer[0]
    {
      var conn := objects[id];
      u := conn.buffer[0];
      objects := objects[id := conn.(buffer := conn.buffer[1..], taken := conn.taken + [u])];
    }
  }
}
