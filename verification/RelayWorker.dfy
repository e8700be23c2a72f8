/** The relay worker in the source's own form: a context whose maps the handlers update in place. */
module RelayWorker {
  import opened Net
  import opened RelayModel
  import opened RelayInvariants
  import opened RelayWakes

  class RelayContext {
    var sessions: map<nat, Session>
    var fds: map<int, nat>
    var inbound: int
    var destination: SocketAddress
    var open: set<int>
    var watched: set<int>
    var emitted: seq<Out>

    function Model(): Relay
      reads this
    {
      Relay(sessions, fds, inbound, destination, open, watched)
    }

    constructor (inbound: int, destination: SocketAddress)
      ensures Model() == Start(inbound, destination) && emitted == []
    {
      sessions, fds := map[], map[];
      this.inbound, this.destination := inbound, destination;
      open, watched := {inbound}, {inbound};
      emitted := [];
    }

    /** A bound socket, or nothing: a socket that cannot be bound or named is closed again. */
    method NewOutboundUdpSocket(opening: Opening) returns (fd: int, port: nat)
      requires opening.Bound? ==> opening.fd >= 0
      requires !opening.NoSocket? ==> opening.fd !in open
      modifies `open
      ensures if opening.Bound?
              then fd == opening.fd && port == opening.port && open == old(open) + {fd}
              else fd < 0 && open == old(open)
    {
      if opening.NoSocket? {
        return -1, 0;
      }
      open := open + {opening.fd};
      if opening.BindFails? {
        open := open - {opening.fd};
        return -1, 0;
      }
      if opening.NameFails? {
        open := open - {opening.fd};
        return -1, 0;
      }
      return opening.fd, opening.port;
    }

    method SendUdpPacket(fd: int, packet: Packet, to: SocketAddress, send: Send) returns (result: Send)
      modifies `emitted
      ensures result == Transmit(send, to)
      ensures emitted == old(emitted) + Emitted(result, Out(fd, to, packet))
      ensures to.address == NoAddress ==> result == Refused && emitted == old(emitted)
      ensures to.address != NoAddress ==> result == send
    {
      if !to.IsValid() {
        return Refused;
      }
      if send.Sent? {
        emitted := emitted + [Out(fd, to, packet)];
      }
      return send;
    }

    method HandlePacketFromServer(packet: Packet, sid: nat, send: Send)
      modifies this
      ensures Model() == HandleServer(old(Model()), packet, sid, send).relay
      ensures emitted == old(emitted) + HandleServer(old(Model()), packet, sid, send).out
    {
      if sid !in sessions {
        return;
      }
      var session := sessions[sid];
      var clientAddress := session.source;
      if !session.source.IsValid() {
        return;
      }
      session := session.(totalRx := Inc32(session.totalRx));
      sessions := sessions[sid := session];
      var result := SendUdpPacket(inbound, packet, clientAddress, send);
      if !result.Sent? {
        if result.WouldBlock? {
          session := session.(droppedRx := Inc32(session.droppedRx));
          sessions := sessions[sid := session];
        }
        return;
      }
      session := session.(lastRx := result.at);
      sessions := sessions[sid := session];
    }

    /** A session with a bound and watched socket of its own, or nothing. */
    method CreateSession(packet: Packet, sid: nat, from: SocketAddress, os: Answers) returns (ok: bool)
      requires |packet| >= 4 && sid !in sessions
      requires LegalOpening(Model(), os.opening)
      modifies this
      ensures Model() == OpenSession(old(Model()), packet, sid, from, os) && emitted == old(emitted)
      ensures ok <==> sid in sessions
    {
      var reserved := Reserved(packet);
      var fd, port := NewOutboundUdpSocket(os.opening);
      if fd < 0 {
        return false;
      }
      if !os.watchOk {
        open := open - {fd};
        return false;
      }
      watched := watched + {fd};
      var now := os.openedAt;
      sessions := Emplace(sessions, sid, Session(sid, reserved, fd, port, from, now, now, 0, 0, 0, 0));
      fds := Emplace(fds, fd, sid);
      return true;
    }

    /** Sends a client's packet on to the server through the socket of its session. */
    method ForwardFromClient(packet: Packet, sid: nat, from: SocketAddress, send: Send)
      requires sid in sessions
      modifies this
      ensures var s, result := old(sessions[sid]), Transmit(send, old(destination));
        && Model() == old(Model()).(sessions := old(sessions)[sid := AfterTx(s, from, result)])
        && emitted == old(emitted) + Emitted(result, Out(s.outboundSocket, old(destination), packet))
    {
      var session := sessions[sid];
      if session.source != from {
        session := session.(source := from);
      }
      session := session.(totalTx := Inc32(session.totalTx));
      sessions := sessions[sid := session];
      var result := SendUdpPacket(session.outboundSocket, packet, destination, send);
      if !result.Sent? {
        if result.WouldBlock? {
          session := session.(droppedTx := Inc32(session.droppedTx));
          sessions := sessions[sid := session];
        }
        return;
      }
      session := session.(lastTx := result.at);
      sessions := sessions[sid := session];
    }

    method HandlePacketFromClient(packet: Packet, sid: nat, from: SocketAddress, os: Answers)
      requires |packet| >= 4
      requires LegalOpening(Model(), os.opening)
      modifies this
      ensures Model() == HandleClient(old(Model()), packet, sid, from, os).relay
      ensures emitted == old(emitted) + HandleClient(old(Model()), packet, sid, from, os).out
    {
      if sid !in sessions {
        var ok := CreateSession(packet, sid, from, os);
        if !ok {
          return;
        }
      }
      ForwardFromClient(packet, sid, from, os.send);
    }

    /**
     The expiry sweep: sessions are visited in any order and erased while iterating. Closing a
     socket also ends epoll's interest in it, whether or not the explicit removal succeeds.
     */
    method SweepSessions(now: nat)
      modifies this
      ensures Model() == AfterSweep(old(Model()), now)
      ensures emitted == old(emitted)
    {
      ghost var r := Model();
      var todo := sessions.Keys;
      ghost var done: set<nat> := {};
      VisitNone(r, now);
      while todo != {}
        invariant todo + done == r.sessions.Keys && todo !! done
        invariant Model() == Visited(r, done, now)
        invariant emitted == old(emitted)
        decreases todo
      {
        var sid :| sid in todo;
        todo := todo - {sid};
        VisitOne(r, done, sid, now);
        done := done + {sid};
        var session := Reported(sessions[sid]);
        sessions := sessions[sid := session];
        if Expired(session, now) {
          var sock := session.outboundSocket;
          if sock >= 0 {
            watched := watched - {sock};
            open := open - {sock};
          }
          fds := fds - {sock};
          sessions := sessions - {sid};
        }
      }
      VisitAll(r, now);
    }

    /** One event of a batch: a datagram is dispatched by the socket it came in on. */
    method HandleEvent(fd: int, packet: Packet, from: SocketAddress, os: Answers)
      requires LegalOpening(Model(), os.opening)
      modifies this
      ensures Model() == OnArrival(old(Model()), fd, packet, from, os).relay
      ensures emitted == old(emitted) + OnArrival(old(Model()), fd, packet, from, os).out
    {
      if fd == inbound {
        var sid := SessionId(packet);
        if sid == 0 {
          return;
        }
        HandlePacketFromClient(packet, sid, from, os);
      } else {
        if from != destination {
          return;
        }
        if fd !in fds {
          return;
        }
        HandlePacketFromServer(packet, fds[fd], os.send);
      }
    }

    /** One batch of events; a fatal receive error ends it and the worker. */
    method RunBatch(events: seq<Event>) returns (fatal: bool)
      requires RelayInv(Model()) && LegalWake(Model(), Ready(events))
      modifies this
      ensures RelayInv(Model())
      ensures fatal == HasFatal(events)
      ensures Model() == Run(old(Model()), Arrivals(events)).relay
      ensures emitted == old(emitted) + Run(old(Model()), Arrivals(events)).out
    {
      ghost var r, before := Model(), emitted;
      BatchInv(r, events);
      var i := 0;
      while i < |events|
        invariant 0 <= i <= |events|
        invariant forall k :: 0 <= k < i ==> !events[k].outcome.Fatal?
        invariant Remaining(r, before, Arrivals(events), Model(), emitted, Arrivals(events[i..]))
      {
        var event := events[i];
        ArrivalsStep(events, i);
        if event.outcome.Fatal? {
          return true;
        }
        if event.outcome.Datagram? {
          var o := event.outcome;
          RemainingOne(r, before, Arrivals(events), Model(), emitted,
                       Arrival(event.fd, o.packet, o.from, o.os), Arrivals(events[i + 1..]));
          HandleEvent(event.fd, o.packet, o.from, o.os);
        }
        i := i + 1;
      }
      return false;
    }

    /** One round of the worker loop: without events it sweeps and sends nothing. */
    method HandleWake(wake: Wake) returns (stop: bool)
      requires RelayInv(Model()) && LegalWake(Model(), wake)
      modifies this
      ensures RelayInv(Model())
      ensures stop <==> EndsWorker(wake)
      ensures Model() == Run(old(Model()), WakeInputs(wake)).relay
      ensures emitted == old(emitted) + Run(old(Model()), WakeInputs(wake)).out
      ensures wake.Quiet? ==> SweptAt(old(Model()), Model(), wake.now) && emitted == old(emitted)
    {
      StopsMeaning(wake);
      match wake {
        case WaitFails => stop := true;
        case Quiet(now) =>
          RunOne(Model(), Sweep(now));
          SweepInv(Model(), now);
          SweepSweeps(Model(), now);
          SweepSessions(now);
          stop := false;
        case Ready(events) => stop := RunBatch(events);
      }
    }

    /**
     The worker loop, up to the error that ends it or to the end of what the system has to offer.
     Whenever epoll_wait returns, the sockets of its events are watched.
     */
    method RunWorker(script: seq<Wake>) returns (ended: bool)
      requires RelayInv(Model()) && LegalScript(Model(), script)
      modifies this
      ensures RelayInv(Model())
      ensures ended <==> exists k :: 0 <= k < |script| && EndsWorker(script[k])
      ensures Model() == Run(old(Model()), Inputs(script)).relay
      ensures emitted == old(emitted) + Run(old(Model()), Inputs(script)).out
      ensures LastSweep(old(Model()), script, Model())
    {
      ghost var r, before := Model(), emitted;
      LastSweeps(r, script);
      var i := 0;
      while i < |script|
        invariant 0 <= i <= |script|
        invariant forall k :: 0 <= k < i ==> !EndsWorker(script[k])
        invariant ScriptLeft(r, before, Inputs(script), Model(), emitted, script[i..])
      {
        WakeTaken(r, before, Inputs(script), Model(), emitted, script[i..]);
        StopsMeaning(script[i]);
        var stop := HandleWake(script[i]);
        if stop {
          return true;
        }
        assert script[i..][1..] == script[i + 1..];
        i := i + 1;
      }
      return false;
    }
  }

  /** If the last wake-up was without events, the worker has just swept. */
  ghost predicate LastSweep(r: Relay, script: seq<Wake>, r': Relay) {
    script != [] && GoesOn(script) && script[|script| - 1].Quiet? ==>
      SweptAt(Run(r, Inputs(script[..|script| - 1])).relay, r', script[|script| - 1].now)
  }

  lemma {:induction false} LastSweeps(r: Relay, script: seq<Wake>)
    requires RelayInv(r) && LegalScript(r, script)
    ensures LastSweep(r, script, Run(r, Inputs(script)).relay)
  {
    if script != [] && GoesOn(script) && script[|script| - 1].Quiet? {
      var before, last := script[..|script| - 1], script[|script| - 1];
      assert script == before + [last];
      LegalPrefix(r, before, last);
      QuietSweeps(r, before, last.now);
    }
  }

  /** Of a run over `all`, started at `r` with `before` emitted, what is left is `rest`. */
  ghost predicate Remaining(r: Relay, before: seq<Out>, all: seq<Input>,
                            m: Relay, emitted: seq<Out>, rest: seq<Input>) {
    && LegalRun(m, rest)
    && Run(r, all).relay == Run(m, rest).relay
    && before + Run(r, all).out == emitted + Run(m, rest).out
  }

  /** The first part of the rest can be handled next, and then the second part is left. */
  lemma {:induction false} RemainingPart(r: Relay, before: seq<Out>, all: seq<Input>, m: Relay, emitted: seq<Out>,
                      part: seq<Input>, rest: seq<Input>)
    requires Remaining(r, before, all, m, emitted, part + rest)
    ensures LegalRun(m, part)
    ensures Remaining(r, before, all, Run(m, part).relay, emitted + Run(m, part).out, rest)
  {
    LegalConcat(m, part, rest);
    RunConcat(m, part, rest);
    assert emitted + (Run(m, part).out + Run(Run(m, part).relay, rest).out)
        == emitted + Run(m, part).out + Run(Run(m, part).relay, rest).out;
  }

  /** What is left is what the wake-ups in `rest` bring, and these are legal. */
  ghost predicate ScriptLeft(r: Relay, before: seq<Out>, all: seq<Input>,
                             m: Relay, emitted: seq<Out>, rest: seq<Wake>) {
    && RelayInv(m) && LegalScript(m, rest)
    && Run(r, all).relay == Run(m, Inputs(rest)).relay
    && before + Run(r, all).out == emitted + Run(m, Inputs(rest)).out
  }

  /** Handling the next wake-up leaves the others, or nothing if it stops the worker. */
  lemma {:induction false} WakeTaken(r: Relay, before: seq<Out>, all: seq<Input>, m: Relay, emitted: seq<Out>,
                                     rest: seq<Wake>)
    requires ScriptLeft(r, before, all, m, emitted, rest) && rest != []
    ensures LegalWake(m, rest[0])
    ensures var done := Run(m, WakeInputs(rest[0]));
      if Stops(rest[0])
      then Run(r, all).relay == done.relay && before + Run(r, all).out == emitted + done.out
      else ScriptLeft(r, before, all, done.relay, emitted + done.out, rest[1..])
  {
    var part, later := WakeInputs(rest[0]), if Stops(rest[0]) then [] else Inputs(rest[1..]);
    WakeLegal(m, rest[0]);
    RunInv(m, part);
    ScriptLegal(m, rest);
    assert Inputs(rest) == part + later;
    RemainingPart(r, before, all, m, emitted, part, later);
  }

  lemma {:induction false} BatchInv(r: Relay, events: seq<Event>)
    requires RelayInv(r) && LegalWake(r, Ready(events))
    ensures LegalRun(r, Arrivals(events)) && RelayInv(Run(r, Arrivals(events)).relay)
  {
    WakeLegal(r, Ready(events));
    RunInv(r, Arrivals(events));
  }

  /** The first input of the rest can be handled next. */
  lemma {:induction false} RemainingOne(r: Relay, before: seq<Out>, all: seq<Input>, m: Relay, emitted: seq<Out>,
                                        input: Input, rest: seq<Input>)
    requires Remaining(r, before, all, m, emitted, [input] + rest)
    ensures Legal(m, input)
    ensures Remaining(r, before, all, Step(m, input).relay, emitted + Step(m, input).out, rest)
  {
    RemainingPart(r, before, all, m, emitted, [input], rest);
    RunOne(m, input);
  }

  lemma {:induction false} ArrivalsStep(events: seq<Event>, i: nat)
    requires i < |events|
    ensures Arrivals(events[i..]) == match events[i].outcome
                                     case Fatal => []
                                     case Datagram(packet, from, os) =>
                                       [Arrival(events[i].fd, packet, from, os)] + Arrivals(events[i + 1..])
                                     case _ => Arrivals(events[i + 1..])
  {
    assert events[i..][1..] == events[i + 1..];
  }

  /** The relay after the sweep has visited the sessions in `done`. */
  ghost function Visited(r: Relay, done: set<nat>, now: nat): Relay {
    var closing := Closing(r.sessions, done, now);
    r.(sessions := map sid | sid in r.sessions && !(sid in done && Expired(r.sessions[sid], now))
                     :: if sid in done then Reported(r.sessions[sid]) else r.sessions[sid],
       fds := r.fds - closing,
       open := r.open - (set fd | fd in closing && fd >= 0),
       watched := r.watched - (set fd | fd in closing && fd >= 0))
  }

  lemma {:induction false} VisitNone(r: Relay, now: nat)
    ensures Visited(r, {}, now) == r
  {
    assert Visited(r, {}, now).sessions == r.sessions;
    assert Closing(r.sessions, {}, now) == {};
    assert r.fds - {} == r.fds;
  }

  /** One more session: reported if something was dropped, erased and closed if expired. */
  lemma {:induction false} VisitOne(r: Relay, done: set<nat>, sid: nat, now: nat)
    requires sid in r.sessions && sid !in done
    ensures var v, v', s := Visited(r, done, now), Visited(r, done + {sid}, now), Reported(r.sessions[sid]);
      && sid in v.sessions && v.sessions[sid] == r.sessions[sid]
      && v' == if Expired(s, now)
               then v.(sessions := v.sessions[sid := s] - {sid},
                       fds := v.fds - {s.outboundSocket},
                       open := if s.outboundSocket >= 0 then v.open - {s.outboundSocket} else v.open,
                       watched := if s.outboundSocket >= 0 then v.watched - {s.outboundSocket} else v.watched)
               else v.(sessions := v.sessions[sid := s])
  {
    var v, v', s := Visited(r, done, now), Visited(r, done + {sid}, now), Reported(r.sessions[sid]);
    ClosingOne(r.sessions, done, sid, now);
    assert Expired(s, now) == Expired(r.sessions[sid], now);
    if Expired(s, now) {
      assert v'.sessions == v.sessions[sid := s] - {sid};
      assert v'.fds == v.fds - {s.outboundSocket};
      assert v'.open == if s.outboundSocket >= 0 then v.open - {s.outboundSocket} else v.open;
      assert v'.watched == if s.outboundSocket >= 0 then v.watched - {s.outboundSocket} else v.watched;
    } else {
      assert v'.sessions == v.sessions[sid := s];
    }
  }

  lemma {:induction false} VisitAll(r: Relay, now: nat)
    ensures Visited(r, r.sessions.Keys, now) == AfterSweep(r, now)
  {
    assert Visited(r, r.sessions.Keys, now).sessions == AfterSweep(r, now).sessions;
  }

  /** Visiting one more session adds its socket to those closed, if it is expired. */
  lemma {:induction false} ClosingOne(sessions: map<nat, Session>, done: set<nat>, sid: nat, now: nat)
    requires sid in sessions
    ensures Closing(sessions, done + {sid}, now)
         == Closing(sessions, done, now) + if Expired(sessions[sid], now) then {sessions[sid].outboundSocket} else {}
  {
  }
}
