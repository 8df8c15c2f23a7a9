/** The rules of the streaming queue in terms of the connections themselves: who is admitted,
    who is offered an update, who has to go, and when. */
module StreamingRules {
  import opened Types
  import opened StreamingQueue

  // ------------------------------------------------------------------- admission

  /** A connection is admitted exactly if the queue is not shutting down and there is room, or
      no maximum; it starts with its initial update and nothing else. Otherwise nothing
      happens. */
  lemma AdmittedIff(s: State, owner: nat, reads_: string -> bool, initial: Option<Update>)
    ensures var r, t := Admission(s), Next(s, Register(owner, reads_, initial));
            var first := if initial.Some? then [initial.value] else [];
            && (r.Accepted? <==> !s.shuttingDown && (s.maxConnections <= 0 || |s.live| < s.maxConnections))
            && (r.ShuttingDown? <==> s.shuttingDown)
            && if r.Accepted? then
                 && r.id == s.nextConnID + 1
                 && t == s.(nextConnID := r.id, live := s.live + {r.id},
                            objects := s.objects[r.id := Conn(owner, reads_, first, first, [], 0)])
               else t == s
  {
    var none: seq<Update> := [];
    if initial.Some? { assert none + [initial.value] == [initial.value]; }
  }

  /** Identifiers are given out one after the other. */
  lemma {:induction false} IdsConsecutive(max: int, run: seq<Event>)
    requires After(Initial(max), run).Some?
    ensures var s := After(Initial(max), run).value; forall id :: id in s.objects <==> 1 <= id <= s.nextConnID
  {
    if run != [] {
      var before, e := run[..|run| - 1], run[|run| - 1];
      IdsConsecutive(max, before);
      var s := After(Initial(max), before).value;
      NextIds(s, e);
    }
  }

  lemma NextIds(s: State, e: Event)
    requires Enabled(s, e) && forall id :: id in s.objects <==> 1 <= id <= s.nextConnID
    ensures var t := Next(s, e); forall id :: id in t.objects <==> 1 <= id <= t.nextConnID
  {
    if e.Register? { AdmittedIff(s, e.owner, e.reads_, e.initial); }
    hide Admission, NewConn, Broadcast, WithWaiter, Notified;
  }

  /** The maximum in force. */
  function Maximum(max: int, run: seq<Event>): int {
    if run == [] then max
    else if run[|run| - 1].SetMax? then run[|run| - 1].max
    else Maximum(max, run[..|run| - 1])
  }

  /** It is the one that was set last, and only a shutdown makes the queue shut down. */
  lemma {:induction false} SettingsKept(max: int, run: seq<Event>)
    requires After(Initial(max), run).Some?
    ensures var s := After(Initial(max), run).value;
            s.maxConnections == Maximum(max, run) && (s.shuttingDown <==> Shutdown in run)
  {
    if run != [] {
      var before, e := run[..|run| - 1], run[|run| - 1];
      SettingsKept(max, before);
      assert run == before + [e];
      var s := After(Initial(max), before).value;
      assert Next(s, e).shuttingDown <==> s.shuttingDown || e.Shutdown?;
    }
  }

  // --------------------------------------------------------------------- updates

  /** An update goes to exactly the registered connections that have fewer than a hundred
      waiting, and to all of those unless it is a value of a scope that they may not read. */
  lemma OfferedIff(s: State, u: Update, scope: string, id: nat)
    requires id in s.objects
    ensures var t, c := Next(s, Notify(u, scope)), s.objects[id];
            && t == s.(objects := t.objects) && t.objects.Keys == s.objects.Keys
            && t.objects[id] ==
                 if id in s.live && |c.buffer| < 100 && (u.OtherUpdate? || scope == "" || c.reads_(scope))
                 then c.(buffer := c.buffer + [u], sent := c.sent + [u]) else c
  {
  }

  // ----------------------------------------------------------- coming and going

  /** A connection goes only when it is deregistered itself or by a watchdog of its own, and
      comes only by being admitted. */
  lemma GoesIff(s: State, e: Event, id: nat)
    requires Enabled(s, e)
    ensures id in s.live ==> (id !in Next(s, e).live <==> (e.Deregister? || e.WatchdogFires?) && e.id == id)
    ensures id !in s.live ==> (id in Next(s, e).live <==> e.Register? && Admission(s) == Accepted(id))
  {
  }

  /** What the calls of a run owe to its events. */
  ghost predicate Accounted(s: State, run: seq<Event>) {
    && (forall c: nat :: c < |s.calls| && s.calls[c].expired ==> Expire(c) in run)
    && (forall id: nat :: id in s.objects && s.objects[id].closed > 0 <==> Entered(run, id))
  }

  ghost predicate Entered(run: seq<Event>, id: nat) { exists c: nat :: Enter(c, id) in run }

  lemma {:induction false} AlwaysAccounted(max: int, run: seq<Event>)
    requires After(Initial(max), run).Some?
    ensures Accounted(After(Initial(max), run).value, run)
  {
    if run != [] {
      var before, e := run[..|run| - 1], run[|run| - 1];
      AlwaysAccounted(max, before);
      RunKeeps(max, before);
      assert run == before + [e];
      var s := After(Initial(max), before).value;
      hide After;
      ExpiredAccounted(s, before, e);
      ClosedAccounted(s, before, e);
    } else {
      assert Accounted(Initial(max), []);
    }
  }

  lemma ExpiredAccounted(s: State, before: seq<Event>, e: Event)
    requires Enabled(s, e) && Accounted(s, before)
    ensures forall c: nat :: c < |Next(s, e).calls| && Next(s, e).calls[c].expired ==> Expire(c) in before + [e]
  {
    hide Admission, NewConn, Notified, Roused;
  }

  lemma ClosedAccounted(s: State, before: seq<Event>, e: Event)
    requires Good(s) && Enabled(s, e) && Accounted(s, before)
    ensures forall id: nat :: id in Next(s, e).objects && Next(s, e).objects[id].closed > 0
                         <==> Entered(before + [e], id)
  {
    hide CallOk, ConnOk, Broadcast, WithWaiter;
    var t := Next(s, e);
    forall id: nat ensures Entered(before + [e], id) <==> Entered(before, id) || (e.Enter? && e.id == id) {
      EnteredMore(before, e, id);
    }
    forall id: nat
      ensures id in t.objects && t.objects[id].closed > 0
         <==> (id in s.objects && s.objects[id].closed > 0) || (e.Enter? && e.id == id)
    {
      if id in s.objects { assert 0 < id <= s.nextConnID; }
    }
  }

  lemma EnteredMore(before: seq<Event>, e: Event, id: nat)
    ensures Entered(before + [e], id) <==> Entered(before, id) || (e.Enter? && e.id == id)
  {
    if e.Enter? && e.id == id { assert Enter(e.call, id) in before + [e]; }
    if c: nat :| Enter(c, id) in before { assert Enter(c, id) in before + [e]; }
  }

  /** `Done` is closed for exactly the connections that some shutdown came to. */
  lemma DoneClosedIff(max: int, run: seq<Event>, id: nat)
    requires After(Initial(max), run).Some? && id in After(Initial(max), run).value.objects
    ensures After(Initial(max), run).value.objects[id].closed == if Entered(run, id) then 1 else 0
  {
    RunKeeps(max, run);
    AlwaysAccounted(max, run);
    hide After;
  }

  /** No connection is forced to close before the deadline of the shutdown that does it. */
  lemma ForcedAfterDeadline(max: int, run: seq<Event>, c: nat, id: nat)
    requires After(Initial(max), run + [WatchdogFires(c, id)]).Some?
    ensures Expire(c) in run
  {
    var e := WatchdogFires(c, id);
    assert (run + [e])[..|run + [e]| - 1] == run;
    AlwaysAccounted(max, run);
    hide Next;
  }

  // ---------------------------------------------------------------------- owners

  /** A shutdown of one owner closes and forces only connections of that owner: whatever its
      goroutines and watchdogs do leaves every other connection as it is. */
  lemma SparesOthers(max: int, before: seq<Event>, owner: nat, more: seq<Event>, f: Event, other: nat)
    requires After(Initial(max), before + [ShutdownOwner(owner)] + more).Some?
    requires After(Initial(max), before).Some?
    requires f.Enter? || f.Wake? || f.WatchdogFires? || f.WatchdogStops?
    requires f.call == |After(Initial(max), before).value.calls|
    requires var t := After(Initial(max), before + [ShutdownOwner(owner)] + more).value;
             Enabled(t, f) && other in t.objects && t.objects[other].owner != owner
    ensures var t := After(Initial(max), before + [ShutdownOwner(owner)] + more).value;
            && f.id in t.objects && t.objects[f.id].owner == owner
            && Next(t, f).objects[other] == t.objects[other] && (other in Next(t, f).live <==> other in t.live)
  {
    var s, t := After(Initial(max), before).value, After(Initial(max), before + [ShutdownOwner(owner)] + more).value;
    var all := before + [ShutdownOwner(owner)] + more;
    assert all == before + ([ShutdownOwner(owner)] + more);
    WhenReturned(max, before, ShutdownOwner(owner), more);
    NothingComesBack(max, before, [ShutdownOwner(owner)] + more);
    RunKeeps(max, all);
    hide After;
    assert f.id in t.calls[|s.calls|].waiters;
    assert CallOk(t, t.calls[f.call]) && WaiterOk(t, f.id, t.calls[f.call].waiters[f.id]);
    hide CallOk, Broadcast, WithWaiter;
  }
}
