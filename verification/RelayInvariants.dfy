/** What every reachable state of the relay keeps: the two maps are inverse, and no socket leaks. */
module RelayInvariants {
  import opened Net
  import opened RelayModel

  /** The reserved value of a packet is its second to fourth byte. */
  lemma {:induction false} ReservedBytes(packet: Packet)
    requires |packet| >= 4
    ensures Reserved(packet) == packet[1] as int + packet[2] as int * 0x100 + packet[3] as int * 0x1_0000
  {
    var high := packet[1] as int + packet[2] as int * 0x100 + packet[3] as int * 0x1_0000;
    assert HeaderWord(packet) == 0x100 * high + packet[0] as int;
  }

  /** Three bytes make up a number in one way only. */
  lemma {:induction false} BytesUnique(a1: Byte, a2: Byte, a3: Byte, b1: Byte, b2: Byte, b3: Byte)
    requires a1 as int + a2 as int * 0x100 + a3 as int * 0x1_0000
          == b1 as int + b2 as int * 0x100 + b3 as int * 0x1_0000
    ensures a1 == b1 && a2 == b2 && a3 == b3
  {
  }

  /** The id is 2^33 plus the reserved bytes, the lowest first; 0 stands for a rejected packet. */
  lemma {:induction false} SessionIdIsReserved(a: Packet, b: Packet)
    ensures SessionId(a) == 0 <==> |a| < 32 || (a[1] == 0 && a[2] == 0 && a[3] == 0)
    ensures SessionId(a) != 0 ==>
      SessionId(a) == 0x2_0000_0000 + a[1] as int + a[2] as int * 0x100 + a[3] as int * 0x1_0000
    ensures SessionId(a) != 0 && SessionId(b) != 0 ==>
      (SessionId(a) == SessionId(b) <==> a[1] == b[1] && a[2] == b[2] && a[3] == b[3])
  {
    if |a| >= MIN_PACKET { ReservedBytes(a); }
    if |b| >= MIN_PACKET { ReservedBytes(b); }
    if SessionId(a) != 0 && SessionId(b) != 0 && SessionId(a) == SessionId(b) {
      BytesUnique(a[1], a[2], a[3], b[1], b[2], b[3]);
    }
  }

  predicate SessionOk(r: Relay, sid: nat)
    requires sid in r.sessions
  {
    var s := r.sessions[sid];
    && s.id == sid
    && sid == 2 * WORD32 + s.reserved
    && s.source.IsValid()
    && s.lastTx < WORD64 && s.lastRx < WORD64
    && s.outboundSocket >= 0
    && s.outboundSocket != r.inbound
    && s.outboundSocket in r.fds && r.fds[s.outboundSocket] == sid
  }

  predicate FdOk(r: Relay, fd: int)
    requires fd in r.fds
  {
    r.fds[fd] in r.sessions && r.sessions[r.fds[fd]].outboundSocket == fd
  }

  /** The open sockets are the inbound one and the sessions' own, and all of them are watched. */
  predicate RelayInv(r: Relay) {
    && (forall sid :: sid in r.sessions ==> SessionOk(r, sid))
    && (forall fd :: fd in r.fds ==> FdOk(r, fd))
    && r.open == {r.inbound} + r.fds.Keys
    && r.watched == r.open
    && r.inbound >= 0
    && r.destination.IsValid()
  }

  lemma {:induction false} StartInv(inbound: int, destination: SocketAddress)
    requires inbound >= 0 && destination.IsValid()
    ensures RelayInv(Start(inbound, destination))
  {
  }

  /** Replacing a session by one with the same identity, socket and a valid source changes no link. */
  lemma {:induction false} UpdateInv(r: Relay, sid: nat, s: Session)
    requires RelayInv(r) && sid in r.sessions && s.source.IsValid() && s.lastTx < WORD64 && s.lastRx < WORD64
    requires s.id == sid && s.reserved == r.sessions[sid].reserved
    requires s.outboundSocket == r.sessions[sid].outboundSocket
    ensures RelayInv(r.(sessions := r.sessions[sid := s]))
  {
    var r' := r.(sessions := r.sessions[sid := s]);
    forall x | x in r'.sessions
      ensures SessionOk(r', x)
    {
      assert SessionOk(r, x);
    }
    forall fd | fd in r'.fds
      ensures FdOk(r', fd)
    {
      assert FdOk(r, fd);
    }
  }

  lemma {:induction false} OpenInv(r: Relay, packet: Packet, from: SocketAddress, os: Answers)
    requires RelayInv(r) && SessionId(packet) != 0 && SessionId(packet) !in r.sessions
    requires from.IsValid() && LegalOpening(r, os.opening) && LegalReadings(os)
    ensures RelayInv(OpenSession(r, packet, SessionId(packet), from, os))
  {
    var r' := OpenSession(r, packet, SessionId(packet), from, os);
    if os.opening.Bound? && os.watchOk {
      assert os.opening.fd !in r.fds;
      forall x | x in r'.sessions
        ensures SessionOk(r', x)
      {
        if x != SessionId(packet) { assert SessionOk(r, x); }
      }
      forall fd | fd in r'.fds
        ensures FdOk(r', fd)
      {
        if fd != os.opening.fd { assert FdOk(r, fd); }
      }
    }
  }

  /** The sockets that a sweep closes are those of the sessions it removes. */
  lemma {:induction false} SweepCloses(r: Relay, now: nat, fd: int)
    requires RelayInv(r)
    ensures fd in Closing(r.sessions, r.sessions.Keys, now)
        <==> fd in r.fds && r.fds[fd] !in AfterSweep(r, now).sessions
    ensures fd in Closing(r.sessions, r.sessions.Keys, now) ==> fd >= 0 && fd != r.inbound
  {
    if fd in Closing(r.sessions, r.sessions.Keys, now) {
      var sid :| sid in r.sessions && Expired(r.sessions[sid], now) && r.sessions[sid].outboundSocket == fd;
      assert SessionOk(r, sid);
    }
    if fd in r.fds { assert FdOk(r, fd); }
  }

  lemma {:induction false} SweepInv(r: Relay, now: nat)
    requires RelayInv(r)
    ensures RelayInv(AfterSweep(r, now))
  {
    var r' := AfterSweep(r, now);
    var closing := Closing(r.sessions, r.sessions.Keys, now);
    forall fd | fd in closing || fd in r.fds
      ensures fd in closing <==> fd in r.fds && r.fds[fd] !in r'.sessions
      ensures fd in closing ==> fd >= 0 && fd != r.inbound
    {
      SweepCloses(r, now, fd);
    }
    forall sid | sid in r'.sessions
      ensures SessionOk(r', sid)
    {
      assert SessionOk(r, sid);
    }
    forall fd | fd in r'.fds
      ensures FdOk(r', fd)
    {
      assert FdOk(r, fd);
    }
    assert (set fd | fd in closing && fd >= 0) == closing;
  }

  lemma {:induction false} ClientInv(r: Relay, packet: Packet, from: SocketAddress, os: Answers)
    requires RelayInv(r) && SessionId(packet) != 0
    requires from.IsValid() && LegalOpening(r, os.opening) && LegalReadings(os)
    ensures RelayInv(HandleClient(r, packet, SessionId(packet), from, os).relay)
  {
    var sid := SessionId(packet);
    var r' := if sid in r.sessions then r else OpenSession(r, packet, sid, from, os);
    if sid !in r.sessions { OpenInv(r, packet, from, os); }
    if sid in r'.sessions {
      assert SessionOk(r', sid);
      UpdateInv(r', sid, AfterTx(r'.sessions[sid], from, Transmit(os.send, r.destination)));
    }
  }

  lemma {:induction false} StepInv(r: Relay, input: Input)
    requires RelayInv(r) && Legal(r, input)
    ensures RelayInv(Step(r, input).relay)
    ensures Step(r, input).relay.inbound == r.inbound && Step(r, input).relay.destination == r.destination
  {
    match input {
      case Sweep(now) => SweepInv(r, now);
      case Arrival(fd, packet, from, os) =>
        if fd == r.inbound {
          if SessionId(packet) != 0 { ClientInv(r, packet, from, os); }
        } else if from == r.destination && fd in r.fds {
          var sid := r.fds[fd];
          assert FdOk(r, fd);
          assert SessionOk(r, sid);
          UpdateInv(r, sid, AfterRx(r.sessions[sid], Transmit(os.send, r.sessions[sid].source)));
        }
    }
  }

  /**
   In every reachable state the descriptor map and the sessions' sockets are mutually inverse, and
   exactly the inbound socket and the sessions' sockets are open: nothing leaks when the creation
   of a session fails or when a session expires.
   */
  lemma {:induction false} RunInv(r: Relay, inputs: seq<Input>)
    requires RelayInv(r) && LegalRun(r, inputs)
    ensures RelayInv(Run(r, inputs).relay)
    ensures Run(r, inputs).relay.inbound == r.inbound && Run(r, inputs).relay.destination == r.destination
    decreases |inputs|
  {
    if inputs != [] {
      StepInv(r, inputs[0]);
      RunInv(Step(r, inputs[0]).relay, inputs[1..]);
    }
  }

  /**
   The branches for an unknown socket, an unknown session and a session without an address are
   never taken: a watched socket other than the inbound one belongs to a session with an address.
   And a session that was created is there to be found.
   */
  lemma {:induction false} UnknownBranchesUnreachable(r: Relay, input: Input)
    requires RelayInv(r) && Legal(r, input) && input.Arrival?
    ensures input.fd != r.inbound ==>
      && input.fd in r.fds
      && r.fds[input.fd] in r.sessions
      && r.sessions[r.fds[input.fd]].source.IsValid()
    ensures input.fd == r.inbound && SessionId(input.packet) != 0 && input.os.opening.Bound? && input.os.watchOk
            ==> SessionId(input.packet) in Step(r, input).relay.sessions
  {
    if input.fd != r.inbound {
      assert FdOk(r, input.fd);
      assert SessionOk(r, r.fds[input.fd]);
    }
  }

  /** Senders, new descriptors and clock readings of a run are legal; nothing is said of the sockets that were ready. */
  predicate LegalAnswers(r: Relay, inputs: seq<Input>)
    decreases |inputs|
  {
    inputs == []
    || (&& inputs[0].Arrival? && inputs[0].from.IsValid()
        && LegalOpening(r, inputs[0].os.opening) && LegalReadings(inputs[0].os)
        && LegalAnswers(Step(r, inputs[0]).relay, inputs[1..]))
  }

  /**
   Handling a batch of events closes no socket. So it is enough that the sockets of a batch were
   watched when epoll_wait returned it: each is still watched when its event is handled.
   */
  lemma {:induction false} BatchStaysWatched(r: Relay, inputs: seq<Input>)
    requires RelayInv(r) && LegalAnswers(r, inputs)
    requires forall k :: 0 <= k < |inputs| ==> inputs[k].Arrival? && inputs[k].fd in r.watched
    ensures LegalRun(r, inputs)
    ensures r.watched <= Run(r, inputs).relay.watched && r.open <= Run(r, inputs).relay.open
    decreases |inputs|
  {
    if inputs != [] {
      var r' := Step(r, inputs[0]).relay;
      StepInv(r, inputs[0]);
      assert r.watched <= r'.watched && r.open <= r'.open;
      BatchStaysWatched(r', inputs[1..]);
    }
  }

  /** What the system may do in one wake-up: the sockets of a batch are watched when epoll_wait returns. */
  predicate LegalWake(r: Relay, wake: Wake) {
    match wake
    case WaitFails => true
    case Quiet(now) => now < WORD64
    case Ready(events) =>
      && (forall k :: 0 <= k < |events| ==> events[k].fd in r.watched)
      && LegalAnswers(r, Arrivals(events))
  }

  predicate LegalScript(r: Relay, script: seq<Wake>)
    decreases |script|
  {
    script == []
    || (&& LegalWake(r, script[0])
        && (Stops(script[0]) || LegalScript(Run(r, WakeInputs(script[0])).relay, script[1..])))
  }

  lemma {:induction false} ArrivalSockets(events: seq<Event>, sockets: set<int>)
    requires forall k :: 0 <= k < |events| ==> events[k].fd in sockets
    ensures forall k :: 0 <= k < |Arrivals(events)| ==>
      Arrivals(events)[k].Arrival? && Arrivals(events)[k].fd in sockets
    decreases |events|
  {
    if events != [] {
      ArrivalSockets(events[1..], sockets);
    }
  }

  lemma {:induction false} WakeLegal(r: Relay, wake: Wake)
    requires RelayInv(r) && LegalWake(r, wake)
    ensures LegalRun(r, WakeInputs(wake))
  {
    match wake {
      case WaitFails =>
      case Quiet(now) =>
        assert [Sweep(now)][1..] == [];
      case Ready(events) =>
        ArrivalSockets(events, r.watched);
        BatchStaysWatched(r, Arrivals(events));
    }
  }

  /** If each batch is legal when epoll_wait returns it, then each of its events is legal when its turn comes. */
  lemma {:induction false} ScriptLegal(r: Relay, script: seq<Wake>)
    requires RelayInv(r) && LegalScript(r, script)
    ensures LegalRun(r, Inputs(script))
    decreases |script|
  {
    if script != [] {
      var part := WakeInputs(script[0]);
      WakeLegal(r, script[0]);
      if Stops(script[0]) {
        assert Inputs(script) == part;
      } else {
        RunInv(r, part);
        ScriptLegal(Run(r, part).relay, script[1..]);
        LegalConcat(r, part, Inputs(script[1..]));
      }
    }
  }
}
