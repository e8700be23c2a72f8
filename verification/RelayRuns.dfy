/**
 What the relay promises over whole runs: packets are routed to the latest address of the right
 client, sessions do not see each other's packets, and an active session keeps its socket.
 */
module RelayRuns {
  import opened Wrappers
  import opened Net
  import opened RelayModel
  import opened RelayInvariants

  // Routing.

  /** A packet of the client with session id `sid`, as it arrives. */
  predicate FromClient(input: Input, inbound: int, sid: nat) {
    input.Arrival? && input.fd == inbound && sid != 0 && SessionId(input.packet) == sid
  }

  /** The sender of the most recent packet in `history` that carries the id `sid`. */
  function LatestAddress(history: seq<Input>, inbound: int, sid: nat): Option<SocketAddress> {
    if history == [] then None
    else
      var last := history[|history| - 1];
      if FromClient(last, inbound, sid) then Some(last.from)
      else LatestAddress(history[..|history| - 1], inbound, sid)
  }

  /** Each session's address is that of the most recent packet of its client. */
  predicate Tracks(r: Relay, history: seq<Input>) {
    forall sid :: sid in r.sessions ==> LatestAddress(history, r.inbound, sid) == Some(r.sessions[sid].source)
  }

  lemma {:induction false} TracksStep(r: Relay, history: seq<Input>, input: Input)
    requires RelayInv(r) && Legal(r, input) && Tracks(r, history)
    ensures Tracks(Step(r, input).relay, history + [input])
  {
    var r' := Step(r, input).relay;
    var h' := history + [input];
    assert h'[..|h'| - 1] == history;
    forall sid | sid in r'.sessions
      ensures LatestAddress(h', r'.inbound, sid) == Some(r'.sessions[sid].source)
    {
      if sid in r.sessions { assert SessionOk(r, sid); }
      match input {
        case Sweep(_) =>
        case Arrival(fd, packet, _, _) =>
          if fd != r.inbound && fd in r.fds { assert FdOk(r, fd); }
      }
    }
  }

  lemma {:induction false} TracksRun(r: Relay, history: seq<Input>, inputs: seq<Input>)
    requires RelayInv(r) && LegalRun(r, inputs) && Tracks(r, history)
    ensures Tracks(Run(r, inputs).relay, history + inputs)
    decreases |inputs|
  {
    if inputs == [] {
      assert history + inputs == history;
    } else {
      TracksStep(r, history, inputs[0]);
      StepInv(r, inputs[0]);
      TracksRun(Step(r, inputs[0]).relay, history + [inputs[0]], inputs[1..]);
      assert history + [inputs[0]] + inputs[1..] == history + inputs;
    }
  }

  /**
   Routing over runs, for the packets of clients: a packet is rejected if it carries no id or no
   session can be had for it. Otherwise, if the system takes it, that very packet goes to the
   server through the session's socket, which is the one the session had if it was there before.
   */
  lemma {:induction false} ClientRouted(inbound: int, destination: SocketAddress, before: seq<Input>, input: Input)
    requires inbound >= 0 && destination.IsValid() && input.Arrival? && input.fd == inbound
    requires LegalRun(Start(inbound, destination), before + [input])
    ensures var r := Run(Start(inbound, destination), before).relay;
      var r', sid, os := Step(r, input).relay, SessionId(input.packet), input.os;
      && (sid != 0 ==> (sid in r'.sessions <==> sid in r.sessions || (os.opening.Bound? && os.watchOk)))
      && (sid == 0 ==> r' == r)
      && (sid != 0 && sid in r.sessions ==> r'.sessions[sid].outboundSocket == r.sessions[sid].outboundSocket)
      && (sid != 0 && sid in r'.sessions ==> r'.sessions[sid].source == input.from)
      && (sid != 0 && sid in r'.sessions && sid !in r.sessions ==>
            && r'.sessions[sid].outboundSocket == os.opening.fd && r'.sessions[sid].outboundPort == os.opening.port
            && r'.sessions[sid].lastRx == os.openedAt
            && r'.sessions[sid].lastTx == if os.send.Sent? then os.send.at else os.openedAt)
      && Step(r, input).out == (if sid != 0 && sid in r'.sessions && os.send.Sent?
                                then [Out(r'.sessions[sid].outboundSocket, destination, input.packet)] else [])
  {
    var r0 := Start(inbound, destination);
    StartInv(inbound, destination);
    LegalConcat(r0, before, [input]);
    RunInv(r0, before);
  }

  /**
   Routing over runs, for the packets of the server: the socket belongs to one session. A packet
   from anywhere but the server is dropped. A packet from the server goes, unchanged, to the sender
   of the latest packet that carried the session's id, if the system takes it.
   */
  lemma {:induction false} ServerRouted(inbound: int, destination: SocketAddress, before: seq<Input>, input: Input)
    returns (sid: nat)
    requires inbound >= 0 && destination.IsValid() && input.Arrival? && input.fd != inbound
    requires LegalRun(Start(inbound, destination), before + [input])
    ensures var r := Run(Start(inbound, destination), before).relay;
      && sid in r.sessions && r.sessions[sid].outboundSocket == input.fd
      && LatestAddress(before, inbound, sid).Some?
      && Step(r, input).out == if input.from == destination && input.os.send.Sent?
                               then [Out(inbound, LatestAddress(before, inbound, sid).value, input.packet)] else []
  {
    var r0 := Start(inbound, destination);
    var r := Run(r0, before).relay;
    StartInv(inbound, destination);
    LegalConcat(r0, before, [input]);
    RunInv(r0, before);
    TracksRun(r0, [], before);
    assert [] + before == before;
    UnknownBranchesUnreachable(r, input);
    sid := r.fds[input.fd];
    assert FdOk(r, input.fd);
    assert LatestAddress(before, inbound, sid) == Some(r.sessions[sid].source);
  }

  // Isolation.

  /** What there is of session `sid`. */
  function View(r: Relay, sid: nat): Option<Session> {
    if sid in r.sessions then Some(r.sessions[sid]) else None
  }

  /** Whether an input concerns session `sid`: a packet of its client, one for its socket, or a sweep. */
  predicate Concerns(r: Relay, input: Input, sid: nat) {
    match input
    case Sweep(_) => true
    case Arrival(fd, packet, _, _) =>
      if fd == r.inbound then SessionId(packet) == sid else fd in r.fds && r.fds[fd] == sid
  }

  /** The run without the packets that belong to other sessions. */
  function OnlyFor(r: Relay, inputs: seq<Input>, sid: nat): seq<Input>
    decreases |inputs|
  {
    if inputs == [] then []
    else (if Concerns(r, inputs[0], sid) then [inputs[0]] else [])
         + OnlyFor(Step(r, inputs[0]).relay, inputs[1..], sid)
  }

  /** What is emitted in answer to the inputs that concern session `sid`. */
  function OutFor(r: Relay, inputs: seq<Input>, sid: nat): seq<Out>
    decreases |inputs|
  {
    if inputs == [] then []
    else (if Concerns(r, inputs[0], sid) then Step(r, inputs[0]).out else [])
         + OutFor(Step(r, inputs[0]).relay, inputs[1..], sid)
  }

  /** Relay `q` knows of session `sid` what `r` knows of it, and of no other session. */
  predicate Alone(q: Relay, r: Relay, sid: nat) {
    && q.inbound == r.inbound && q.destination == r.destination
    && View(q, sid) == View(r, sid)
    && q.sessions.Keys <= {sid}
  }

  lemma {:induction false} AloneSocket(q: Relay, r: Relay, sid: nat, fd: int)
    requires RelayInv(r) && RelayInv(q) && Alone(q, r, sid)
    ensures fd in q.fds <==> fd in r.fds && r.fds[fd] == sid
    ensures fd in q.fds ==> q.fds[fd] == sid
    ensures q.open <= r.open
  {
    forall x | x in q.fds
      ensures q.fds[x] == sid && x in r.fds && r.fds[x] == sid
    {
      assert FdOk(q, x) && SessionOk(r, sid);
    }
    if fd in r.fds && r.fds[fd] == sid {
      assert FdOk(r, fd) && SessionOk(q, sid);
    }
  }

  /** An input that concerns the session has the same effect on it whether or not there are others. */
  lemma {:induction false} AloneStep(q: Relay, r: Relay, input: Input, sid: nat)
    requires sid != 0 && RelayInv(r) && RelayInv(q) && Alone(q, r, sid)
    requires Legal(r, input) && Concerns(r, input, sid)
    ensures Legal(q, input)
    ensures Alone(Step(q, input).relay, Step(r, input).relay, sid)
    ensures Step(q, input).out == Step(r, input).out
  {
    match input {
      case Sweep(_) =>
      case Arrival(fd, _, _, _) => AloneSocket(q, r, sid, fd);
    }
  }

  /** An input that does not concern the session leaves it as it is. */
  lemma {:induction false} OtherStep(r: Relay, input: Input, sid: nat)
    requires RelayInv(r) && Legal(r, input) && !Concerns(r, input, sid)
    ensures View(Step(r, input).relay, sid) == View(r, sid)
  {
    if input.fd in r.fds { assert FdOk(r, input.fd); }
  }

  lemma {:induction false} AloneRun(q: Relay, r: Relay, inputs: seq<Input>, sid: nat)
    requires sid != 0 && RelayInv(r) && RelayInv(q) && Alone(q, r, sid) && LegalRun(r, inputs)
    ensures LegalRun(q, OnlyFor(r, inputs, sid))
    ensures Alone(Run(q, OnlyFor(r, inputs, sid)).relay, Run(r, inputs).relay, sid)
    ensures Run(q, OnlyFor(r, inputs, sid)).out == OutFor(r, inputs, sid)
    decreases |inputs|
  {
    if inputs != [] {
      var r' := Step(r, inputs[0]).relay;
      StepInv(r, inputs[0]);
      if Concerns(r, inputs[0], sid) {
        var q' := Step(q, inputs[0]).relay;
        AloneStep(q, r, inputs[0], sid);
        StepInv(q, inputs[0]);
        AloneRun(q', r', inputs[1..], sid);
        assert OnlyFor(r, inputs, sid)[1..] == OnlyFor(r', inputs[1..], sid);
      } else {
        OtherStep(r, inputs[0], sid);
        AloneRun(q, r', inputs[1..], sid);
        assert OnlyFor(r, inputs, sid) == OnlyFor(r', inputs[1..], sid);
      }
    }
  }

  /**
   Sessions do not interfere: taking all packets of other sessions out of a run, with the same
   sweeps and the same answers of the system, leaves a run that is legal again, in which the
   session ends up the same and the same packets are emitted for it.
   */
  lemma {:induction false} SessionsIsolated(inbound: int, destination: SocketAddress, inputs: seq<Input>, sid: nat)
    requires inbound >= 0 && destination.IsValid() && sid != 0
    requires LegalRun(Start(inbound, destination), inputs)
    ensures var r := Start(inbound, destination);
      var alone := OnlyFor(r, inputs, sid);
      && LegalRun(r, alone)
      && View(Run(r, alone).relay, sid) == View(Run(r, inputs).relay, sid)
      && Run(r, alone).out == OutFor(r, inputs, sid)
  {
    StartInv(inbound, destination);
    AloneRun(Start(inbound, destination), Start(inbound, destination), inputs, sid);
  }

  // Port stability.

  /** The clock readings of an input, in the order in which they are made. */
  function Readings(input: Input): seq<nat> {
    match input
    case Sweep(now) => [now]
    case Arrival(_, _, _, os) => [os.openedAt] + if os.send.Sent? then [os.send.at] else []
  }

  function LastReading(input: Input): nat {
    var readings := Readings(input);
    readings[|readings| - 1]
  }

  /** The clock does not go back: the readings are nondecreasing from `since` on. */
  predicate ClockForward(since: nat, inputs: seq<Input>)
    decreases |inputs|
  {
    inputs == []
    || (&& since <= Readings(inputs[0])[0] <= LastReading(inputs[0])
        && ClockForward(LastReading(inputs[0]), inputs[1..]))
  }

  /** A packet of the client `sid` that is forwarded if the session exists. */
  predicate ForwardsTx(input: Input, inbound: int, sid: nat) {
    FromClient(input, inbound, sid) && input.os.send.Sent?
  }

  /** A packet of the server for the socket `sock` that is forwarded. */
  predicate ForwardsRx(input: Input, sock: int, destination: SocketAddress) {
    input.Arrival? && input.fd == sock && input.from == destination && input.os.send.Sent?
  }

  predicate RecentTx(s: Session, inbound: int, before: seq<Input>, now: nat) {
    || now - s.lastTx <= 600
    || exists j :: 0 <= j < |before| && ForwardsTx(before[j], inbound, s.id)
                   && now - before[j].os.send.at <= 600
  }

  predicate RecentRx(s: Session, destination: SocketAddress, before: seq<Input>, now: nat) {
    || now - s.lastRx <= 600
    || exists j :: 0 <= j < |before| && ForwardsRx(before[j], s.outboundSocket, destination)
                   && now - before[j].os.send.at <= 600
  }

  /** If input `i` is a sweep, the session has forwarded in each direction within the last 600 seconds before it. */
  predicate ActiveAt(s: Session, inbound: int, destination: SocketAddress, inputs: seq<Input>, i: nat)
    requires i < |inputs|
  {
    inputs[i].Sweep? ==>
      && RecentTx(s, inbound, inputs[..i], inputs[i].now)
      && RecentRx(s, destination, inputs[..i], inputs[i].now)
  }

  predicate Active(s: Session, inbound: int, destination: SocketAddress, inputs: seq<Input>) {
    forall i :: 0 <= i < |inputs| ==> ActiveAt(s, inbound, destination, inputs, i)
  }

  /** The session is there, no reading of the clock that it holds lies ahead of `now`. */
  predicate Held(r: Relay, sid: nat, now: nat) {
    sid in r.sessions && r.sessions[sid].lastTx <= now && r.sessions[sid].lastRx <= now
  }

  predicate SamePort(s: Session, s': Session) {
    s'.id == s.id && s'.outboundSocket == s.outboundSocket && s'.outboundPort == s.outboundPort
  }

  /** A sweep lets a session stay exactly if it has been used recently in both directions. */
  lemma {:induction false} SweepLetsStay(r: Relay, now: nat, sid: nat, since: nat)
    requires RelayInv(r) && Held(r, sid, since) && since <= now < WORD64
    ensures sid in AfterSweep(r, now).sessions <==>
      RecentTx(r.sessions[sid], r.inbound, [], now) && RecentRx(r.sessions[sid], r.destination, [], now)
  {
    var s := r.sessions[sid];
    Elapsed(now, s.lastTx);
    Elapsed(now, s.lastRx);
    assert sid in AfterSweep(r, now).sessions <==> !Expired(s, now);
  }

  lemma {:induction false} Elapsed(now: nat, last: nat)
    requires last <= now < WORD64
    ensures Sub64(now, last) == now - last
  {
  }

  /** An input that leaves the session there: what changes are the times of its last packets. */
  lemma {:induction false} HeldStep(r: Relay, input: Input, sid: nat, since: nat)
    requires RelayInv(r) && Legal(r, input) && Held(r, sid, since)
    requires since <= Readings(input)[0] <= LastReading(input)
    requires sid in Step(r, input).relay.sessions
    ensures Held(Step(r, input).relay, sid, LastReading(input))
    ensures Moved(r.sessions[sid], Step(r, input).relay.sessions[sid], input, r.inbound, r.destination)
  {
    assert SessionOk(r, sid);
    match input {
      case Sweep(_) =>
      case Arrival(fd, _, _, _) =>
        if fd in r.fds { assert FdOk(r, fd); }
    }
  }

  /** How one input moves a session's times, its socket staying the same. */
  predicate Moved(s: Session, s': Session, input: Input, inbound: int, destination: SocketAddress) {
    && SamePort(s, s')
    && s'.lastTx == (if ForwardsTx(input, inbound, s.id) then input.os.send.at else s.lastTx)
    && s'.lastRx == (if ForwardsRx(input, s.outboundSocket, destination) then input.os.send.at else s.lastRx)
  }

  /** Seen after the first input, the recent use of a session is what it was seen before it. */
  lemma {:induction false} RecentRest(s: Session, s': Session, first: Input, inbound: int, destination: SocketAddress,
                                      later: seq<Input>, now: nat)
    requires Moved(s, s', first, inbound, destination) && s.lastTx <= s'.lastTx && s.lastRx <= s'.lastRx
    ensures RecentTx(s, inbound, [first] + later, now) <==> RecentTx(s', inbound, later, now)
    ensures RecentRx(s, destination, [first] + later, now) <==> RecentRx(s', destination, later, now)
  {
    var before := [first] + later;
    assert before[0] == first;
    assert forall k {:trigger later[k]} :: 0 <= k < |later| ==> before[k + 1] == later[k];
    assert forall j {:trigger before[j]} :: 1 <= j < |before| ==> before[j] == later[j - 1];
  }

  lemma {:induction false} ActiveAtRest(s: Session, s': Session, first: Input,
                                        inbound: int, destination: SocketAddress, rest: seq<Input>, i: nat)
    requires Moved(s, s', first, inbound, destination) && s.lastTx <= s'.lastTx && s.lastRx <= s'.lastRx
    requires i < |rest|
    ensures ActiveAt(s, inbound, destination, [first] + rest, i + 1) <==> ActiveAt(s', inbound, destination, rest, i)
  {
    var inputs := [first] + rest;
    assert inputs[..i + 1] == [first] + rest[..i] && inputs[i + 1] == rest[i];
    if rest[i].Sweep? {
      RecentRest(s, s', first, inbound, destination, rest[..i], rest[i].now);
    }
  }

  /** Activity over a run is activity at its first input and over the rest. */
  lemma {:induction false} ActiveRest(s: Session, s': Session,
                                      inbound: int, destination: SocketAddress, inputs: seq<Input>)
    requires inputs != [] && Moved(s, s', inputs[0], inbound, destination)
    requires s.lastTx <= s'.lastTx && s.lastRx <= s'.lastRx
    requires ActiveAt(s, inbound, destination, inputs, 0)
    ensures Active(s, inbound, destination, inputs) <==> Active(s', inbound, destination, inputs[1..])
  {
    var rest := inputs[1..];
    assert inputs == [inputs[0]] + rest;
    forall i: nat | i < |rest|
      ensures ActiveAt(s, inbound, destination, inputs, i + 1) <==> ActiveAt(s', inbound, destination, rest, i)
    {
      ActiveAtRest(s, s', inputs[0], inbound, destination, rest, i);
    }
    if Active(s', inbound, destination, rest) {
      forall j | 0 <= j < |inputs|
        ensures ActiveAt(s, inbound, destination, inputs, j)
      {
        if j > 0 { assert ActiveAt(s', inbound, destination, rest, j - 1); }
      }
    }
    if Active(s, inbound, destination, inputs) {
      forall i | 0 <= i < |rest|
        ensures ActiveAt(s', inbound, destination, rest, i)
      {
        assert ActiveAt(s, inbound, destination, inputs, i + 1);
      }
    }
  }

  /** The session is there all along the run: no input removes it. */
  predicate Stays(r: Relay, inputs: seq<Input>, sid: nat)
    decreases |inputs|
  {
    sid in r.sessions && (inputs == [] || Stays(Step(r, inputs[0]).relay, inputs[1..], sid))
  }

  /** The first input leaves the session there exactly if the session is active at it. */
  lemma {:induction false} FirstLetsStay(r: Relay, inputs: seq<Input>, sid: nat, since: nat)
    requires RelayInv(r) && Held(r, sid, since) && inputs != [] && Legal(r, inputs[0])
    requires since <= Readings(inputs[0])[0]
    ensures sid in Step(r, inputs[0]).relay.sessions
       <==> ActiveAt(r.sessions[sid], r.inbound, r.destination, inputs, 0)
  {
    assert inputs[..0] == [];
    if inputs[0].Sweep? {
      SweepLetsStay(r, inputs[0].now, sid, since);
    }
  }

  /**
   Port stability, exactly: with a clock that does not go back, a session is never removed if and
   only if at every sweep it has forwarded in each direction within the last 600 seconds. Then it
   keeps its socket and port, so all packets of its client leave through the same socket.
   */
  lemma {:induction false} PortStable(r: Relay, inputs: seq<Input>, sid: nat, since: nat)
    requires RelayInv(r) && LegalRun(r, inputs) && ClockForward(since, inputs) && Held(r, sid, since)
    ensures Stays(r, inputs, sid) <==> Active(r.sessions[sid], r.inbound, r.destination, inputs)
    ensures Stays(r, inputs, sid) ==>
      && sid in Run(r, inputs).relay.sessions
      && SamePort(r.sessions[sid], Run(r, inputs).relay.sessions[sid])
      && forall o :: o in OutFor(r, inputs, sid) && o.fd != r.inbound ==> o.fd == r.sessions[sid].outboundSocket
    decreases |inputs|
  {
    if inputs != [] {
      var s := r.sessions[sid];
      var r' := Step(r, inputs[0]).relay;
      assert SessionOk(r, sid);
      FirstLetsStay(r, inputs, sid, since);
      if sid in r'.sessions {
        HeldStep(r, inputs[0], sid, since);
        StepInv(r, inputs[0]);
        ActiveRest(s, r'.sessions[sid], r.inbound, r.destination, inputs);
        PortStable(r', inputs[1..], sid, LastReading(inputs[0]));
      }
    }
  }
}
