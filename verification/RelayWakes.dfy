/**
 What the relay's worker makes of its wake-ups: a wake-up without events sweeps, each datagram of a
 batch is handled once and in order, and nothing is handled after the error that ends the worker.
 */
module RelayWakes {
  import opened Net
  import opened RelayModel
  import opened RelayInvariants
  import opened RelayCounters

  /** What ends the worker: epoll_wait fails, or receiving an event's datagram fails for good. */
  predicate EndsWorker(wake: Wake) {
    || wake.WaitFails?
    || (wake.Ready? && exists k :: 0 <= k < |wake.events| && wake.events[k].outcome == Fatal)
  }

  /** The worker is still running after these wake-ups. */
  ghost predicate GoesOn(script: seq<Wake>) {
    forall k :: 0 <= k < |script| ==> !EndsWorker(script[k])
  }

  lemma {:induction false} StopsMeaning(wake: Wake)
    ensures Stops(wake) <==> EndsWorker(wake)
  {
    if wake.Ready? {
      assert forall k :: 0 <= k < |wake.events| ==>
        (wake.events[k].outcome.Fatal? <==> wake.events[k].outcome == Fatal);
    }
  }

  lemma {:induction false} InputsAppend(script: seq<Wake>, later: seq<Wake>)
    requires GoesOn(script)
    ensures Inputs(script + later) == Inputs(script) + Inputs(later)
    decreases |script|
  {
    if script == [] {
      assert script + later == later;
    } else {
      StopsMeaning(script[0]);
      assert (script + later)[1..] == script[1..] + later;
      InputsAppend(script[1..], later);
    }
  }

  lemma {:induction false} InputsOne(wake: Wake)
    ensures Inputs([wake]) == WakeInputs(wake)
  {
    assert [wake][1..] == [];
  }

  /** Once the worker has ended, nothing more is handled. */
  lemma {:induction false} NothingAfterEnd(script: seq<Wake>, wake: Wake, later: seq<Wake>)
    requires GoesOn(script) && EndsWorker(wake)
    ensures Inputs(script + ([wake] + later)) == Inputs(script + [wake])
    ensures wake.WaitFails? ==> Inputs(script + [wake]) == Inputs(script)
  {
    StopsMeaning(wake);
    InputsAppend(script, [wake] + later);
    InputsAppend(script, [wake]);
    InputsOne(wake);
    assert ([wake] + later)[0] == wake;
  }

  lemma {:induction false} ArrivalsAppend(events: seq<Event>, e: Event)
    requires forall k :: 0 <= k < |events| ==> events[k].outcome != Fatal
    ensures Arrivals(events + [e]) == Arrivals(events) + Arrivals([e])
    decreases |events|
  {
    if events == [] {
      assert events + [e] == [e];
    } else {
      assert (events + [e])[1..] == events[1..] + [e];
      ArrivalsAppend(events[1..], e);
    }
  }

  lemma {:induction false} ArrivalsUpToFatal(events: seq<Event>, e: Event, later: seq<Event>)
    requires e.outcome == Fatal && forall k :: 0 <= k < |events| ==> events[k].outcome != Fatal
    ensures Arrivals(events + ([e] + later)) == Arrivals(events)
    decreases |events|
  {
    var all := events + ([e] + later);
    if events == [] {
      assert all[0] == e;
    } else {
      assert all[0] == events[0] && all[1..] == events[1..] + ([e] + later);
      ArrivalsUpToFatal(events[1..], e, later);
    }
  }

  /** Nor are the events of a batch that come after the error. */
  lemma {:induction false} NothingAfterFatal(script: seq<Wake>, events: seq<Event>, e: Event, later: seq<Event>)
    requires GoesOn(script) && e.outcome == Fatal && forall k :: 0 <= k < |events| ==> events[k].outcome != Fatal
    ensures Inputs(script + [Ready(events + ([e] + later))]) == Inputs(script + [Ready(events)])
  {
    InputsAppend(script, [Ready(events + ([e] + later))]);
    InputsAppend(script, [Ready(events)]);
    InputsOne(Ready(events + ([e] + later)));
    InputsOne(Ready(events));
    ArrivalsUpToFatal(events, e, later);
  }

  lemma {:induction false} ArrivalsOne(e: Event)
    ensures Arrivals([e]) == match e.outcome
                             case Datagram(packet, from, os) => [Arrival(e.fd, packet, from, os)]
                             case _ => []
  {
    assert [e][1..] == [];
  }

  /**
   A batch, event by event: a datagram is handled after what came before it, on the socket it came in
   on, with its bytes and its sender; nothing else is handled, and a batch without events does nothing.
   */
  lemma {:induction false} BatchHandled(script: seq<Wake>, events: seq<Event>, e: Event)
    requires GoesOn(script) && forall k :: 0 <= k < |events| ==> events[k].outcome != Fatal
    ensures Inputs(script + [Ready(events + [e])]) == Inputs(script + [Ready(events)])
         + match e.outcome
           case Datagram(packet, from, os) => [Arrival(e.fd, packet, from, os)]
           case _ => []
    ensures Inputs(script + [Ready([])]) == Inputs(script)
  {
    InputsAppend(script, [Ready(events + [e])]);
    InputsAppend(script, [Ready(events)]);
    InputsAppend(script, [Ready([])]);
    InputsOne(Ready(events + [e]));
    InputsOne(Ready(events));
    InputsOne(Ready([]));
    ArrivalsAppend(events, e);
    ArrivalsOne(e);
  }

  /**
   From `r` to `r'` by a sweep at `now`: exactly the sessions recently used in both directions are
   kept, exactly the sockets of the others are closed, and the counters of a kept session start anew
   if a packet was dropped.
   */
  ghost predicate SweptAt(r: Relay, r': Relay, now: nat) {
    && (forall sid :: sid in r'.sessions <==>
          sid in r.sessions && RecentlyUsed(r.sessions[sid].lastRx, now) && RecentlyUsed(r.sessions[sid].lastTx, now))
    && (forall fd :: fd in r'.open <==> fd == r.inbound || (fd in r.fds && r.fds[fd] in r'.sessions))
    && (forall sid :: sid in r'.sessions ==> KeptAs(r.sessions[sid], r'.sessions[sid]))
  }

  predicate KeptAs(s: Session, s': Session) {
    if s.droppedTx != 0 || s.droppedRx != 0
    then s' == s.(droppedTx := 0, droppedRx := 0, totalTx := 0, totalRx := 0)
    else s' == s
  }

  lemma {:induction false} SweepSweeps(r: Relay, now: nat)
    requires RelayInv(r) && now < WORD64
    ensures SweptAt(r, AfterSweep(r, now), now)
  {
    SweepFilters(r, now);
  }

  /**
   A wake-up without events, after any wake-ups that did not end the worker: the sessions idle for
   more than 600 seconds are gone and their sockets closed, and nothing is sent.
   */
  lemma {:induction false} QuietSweeps(r: Relay, script: seq<Wake>, now: nat)
    requires RelayInv(r) && GoesOn(script) && LegalScript(r, script) && now < WORD64
    ensures var before, after := Run(r, Inputs(script)), Run(r, Inputs(script + [Quiet(now)]));
      SweptAt(before.relay, after.relay, now) && after.out == before.out
  {
    var m := Run(r, Inputs(script)).relay;
    ScriptLegal(r, script);
    RunInv(r, Inputs(script));
    InputsAppend(script, [Quiet(now)]);
    InputsOne(Quiet(now));
    RunConcat(r, Inputs(script), [Sweep(now)]);
    RunOne(m, Sweep(now));
    SweepSweeps(m, now);
  }

  lemma {:induction false} LegalPrefix(r: Relay, script: seq<Wake>, wake: Wake)
    requires GoesOn(script) && LegalScript(r, script + [wake])
    ensures LegalScript(r, script) && LegalWake(Run(r, Inputs(script)).relay, wake)
    decreases |script|
  {
    var all := script + [wake];
    if script == [] {
      assert all[0] == wake;
    } else {
      StopsMeaning(script[0]);
      assert all[1..] == script[1..] + [wake];
      var m := Run(r, WakeInputs(script[0])).relay;
      LegalPrefix(m, script[1..], wake);
      RunConcat(r, WakeInputs(script[0]), Inputs(script[1..]));
    }
  }
}
