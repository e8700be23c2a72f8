/**
 The WireGuard relay as a function of what it receives and of what the operating system answers.

 The answers (which descriptor `socket` returns, whether `bind`, `epoll_ctl` and `sendto` succeed,
 what the clock shows) come with the inputs; hypotheses about them are stated where they are used.
 */
module RelayModel {
  import opened Net

  const WORD32: nat := 0x1_0000_0000
  const WORD64: nat := 0x1_0000_0000_0000_0000
  const EXPIRY_SECONDS: nat := 600
  const MIN_PACKET: nat := 32

  /** uint32_t counters wrap. */
  function Inc32(n: nat): nat {
    (n + 1) % WORD32
  }

  /** Subtraction of uint64_t values wraps. */
  function Sub64(a: nat, b: nat): nat {
    (a - b) % WORD64
  }

  datatype Session = Session(
    id: nat,
    reserved: nat,
    outboundSocket: int,
    outboundPort: nat,
    source: SocketAddress,
    lastTx: nat,
    lastRx: nat,
    droppedTx: nat,
    droppedRx: nat,
    totalTx: nat,
    totalRx: nat)

  /** The context of the worker, with the sockets it has open and those epoll watches for it. */
  datatype Relay = Relay(
    sessions: map<nat, Session>,
    fds: map<int, nat>,
    inbound: int,
    destination: SocketAddress,
    open: set<int>,
    watched: set<int>)

  /** The answer of sendto; a success comes with the clock reading that follows it. */
  datatype Send = Sent(at: nat) | WouldBlock | Refused

  /** How far the creation of an outbound socket gets. */
  datatype Opening = NoSocket | BindFails(fd: int) | NameFails(fd: int) | Bound(fd: int, port: nat)

  datatype Answers = Answers(opening: Opening, watchOk: bool, openedAt: nat, send: Send)

  datatype Input =
    | Arrival(fd: int, packet: Packet, from: SocketAddress, os: Answers)
    | Sweep(now: nat)

  datatype Effect = Effect(relay: Relay, out: seq<Out>)

  /** The header word of a packet, as a little-endian host reads it. */
  function HeaderWord(packet: Packet): nat
    requires |packet| >= 4
  {
    packet[0] as int + packet[1] as int * 0x100 + packet[2] as int * 0x1_0000 + packet[3] as int * 0x100_0000
  }

  function Reserved(packet: Packet): nat
    requires |packet| >= 4
  {
    HeaderWord(packet) / 0x100
  }

  /** The session a client packet belongs to, or 0 for a packet to be rejected. */
  function SessionId(packet: Packet): nat {
    if |packet| < MIN_PACKET then 0
    else if Reserved(packet) != 0 then 2 * WORD32 + Reserved(packet)
    else 0
  }

  /** SendUdpPacket: an address without a family is refused before sendto is tried. */
  function Transmit(send: Send, to: SocketAddress): Send {
    if to.IsValid() then send else Refused
  }

  function NewSession(sid: nat, packet: Packet, fd: int, port: nat, from: SocketAddress, now: nat): Session
    requires |packet| >= 4
  {
    Session(sid, Reserved(packet), fd, port, from, now, now, 0, 0, 0, 0)
  }

  /** The creation of a session; if it fails nothing is left behind. */
  function OpenSession(r: Relay, packet: Packet, sid: nat, from: SocketAddress, os: Answers): Relay
    requires |packet| >= 4
  {
    if os.opening.Bound? && os.watchOk then
      var fd := os.opening.fd;
      r.(sessions := Emplace(r.sessions, sid, NewSession(sid, packet, fd, os.opening.port, from, os.openedAt)),
         fds := Emplace(r.fds, fd, sid),
         open := r.open + {fd},
         watched := r.watched + {fd})
    else r
  }

  function AfterTx(s: Session, from: SocketAddress, result: Send): Session {
    var s' := s.(source := from, totalTx := Inc32(s.totalTx));
    match result
    case Sent(at) => s'.(lastTx := at)
    case WouldBlock => s'.(droppedTx := Inc32(s.droppedTx))
    case Refused => s'
  }

  function AfterRx(s: Session, result: Send): Session {
    var s' := s.(totalRx := Inc32(s.totalRx));
    match result
    case Sent(at) => s'.(lastRx := at)
    case WouldBlock => s'.(droppedRx := Inc32(s.droppedRx))
    case Refused => s'
  }

  function Emitted(result: Send, out: Out): seq<Out> {
    if result.Sent? then [out] else []
  }

  function HandleClient(r: Relay, packet: Packet, sid: nat, from: SocketAddress, os: Answers): Effect
    requires |packet| >= 4
  {
    var r' := if sid in r.sessions then r else OpenSession(r, packet, sid, from, os);
    if sid !in r'.sessions then Effect(r', [])
    else
      var s := r'.sessions[sid];
      var result := Transmit(os.send, r.destination);
      Effect(r'.(sessions := r'.sessions[sid := AfterTx(s, from, result)]),
             Emitted(result, Out(s.outboundSocket, r.destination, packet)))
  }

  function HandleServer(r: Relay, packet: Packet, sid: nat, send: Send): Effect {
    if sid !in r.sessions || !r.sessions[sid].source.IsValid() then Effect(r, [])
    else
      var s := r.sessions[sid];
      var result := Transmit(send, s.source);
      Effect(r.(sessions := r.sessions[sid := AfterRx(s, result)]),
             Emitted(result, Out(r.inbound, s.source, packet)))
  }

  function OnArrival(r: Relay, fd: int, packet: Packet, from: SocketAddress, os: Answers): Effect {
    if fd == r.inbound then
      if SessionId(packet) == 0 then Effect(r, []) else HandleClient(r, packet, SessionId(packet), from, os)
    else if from != r.destination || fd !in r.fds then Effect(r, [])
    else HandleServer(r, packet, r.fds[fd], os.send)
  }

  predicate Expired(s: Session, now: nat) {
    Sub64(now, s.lastRx) > EXPIRY_SECONDS || Sub64(now, s.lastTx) > EXPIRY_SECONDS
  }

  /** A report resets all four counters, and is made only if something was dropped. */
  function Reported(s: Session): Session {
    if s.droppedRx != 0 || s.droppedTx != 0
    then s.(droppedTx := 0, droppedRx := 0, totalTx := 0, totalRx := 0)
    else s
  }

  /** The sockets of the sessions among `sids` that a sweep at `now` closes. */
  function Closing(sessions: map<nat, Session>, sids: set<nat>, now: nat): set<int> {
    set sid | sid in sids && sid in sessions && Expired(sessions[sid], now) :: sessions[sid].outboundSocket
  }

  /** What a sweep leaves: a filter, whatever the order in which the sessions are visited. */
  function AfterSweep(r: Relay, now: nat): Relay {
    var closing := Closing(r.sessions, r.sessions.Keys, now);
    r.(sessions := map sid | sid in r.sessions && !Expired(r.sessions[sid], now) :: Reported(r.sessions[sid]),
       fds := r.fds - closing,
       open := r.open - (set fd | fd in closing && fd >= 0),
       watched := r.watched - (set fd | fd in closing && fd >= 0))
  }

  function Step(r: Relay, input: Input): Effect {
    match input
    case Arrival(fd, packet, from, os) => OnArrival(r, fd, packet, from, os)
    case Sweep(now) => Effect(AfterSweep(r, now), [])
  }

  function Run(r: Relay, inputs: seq<Input>): Effect
    decreases |inputs|
  {
    if inputs == [] then Effect(r, [])
    else
      var first := Step(r, inputs[0]);
      var rest := Run(first.relay, inputs[1..]);
      Effect(rest.relay, first.out + rest.out)
  }

  /** The relay after SetupSockets: the inbound socket is open and watched, and there are no sessions. */
  function Start(inbound: int, destination: SocketAddress): Relay {
    Relay(map[], map[], inbound, destination, {inbound}, {inbound})
  }

  /**
   What the system may answer. Events come from watched sockets, senders have an address, a new
   descriptor is one that is not in use, and every reading of the clock fits its 64-bit word. An
   answer that is not asked for may be anything of that kind, NoSocket in particular.
   */
  predicate Legal(r: Relay, input: Input) {
    match input
    case Arrival(fd, _, from, os) =>
      fd in r.watched && from.IsValid() && LegalOpening(r, os.opening) && LegalReadings(os)
    case Sweep(now) => now < WORD64
  }

  predicate LegalReadings(os: Answers) {
    os.openedAt < WORD64 && (os.send.Sent? ==> os.send.at < WORD64)
  }

  predicate LegalOpening(r: Relay, opening: Opening) {
    !opening.NoSocket? ==> opening.fd >= 0 && opening.fd !in r.open
  }

  predicate LegalRun(r: Relay, inputs: seq<Input>)
    decreases |inputs|
  {
    inputs == [] || (Legal(r, inputs[0]) && LegalRun(Step(r, inputs[0]).relay, inputs[1..]))
  }

  // What the worker loop gets from the system, and the inputs it makes of it.

  datatype Outcome = TryAgain | Fatal | Unusable | Datagram(packet: Packet, from: SocketAddress, os: Answers)
  datatype Event = Event(fd: int, outcome: Outcome)

  /** How epoll_wait returns: an error, an interruption or a timeout (then the clock is read), or events. */
  datatype Wake = WaitFails | Quiet(now: nat) | Ready(events: seq<Event>)

  function Arrivals(events: seq<Event>): seq<Input> {
    if events == [] || events[0].outcome.Fatal? then []
    else (match events[0].outcome
          case Datagram(packet, from, os) => [Arrival(events[0].fd, packet, from, os)]
          case _ => []) + Arrivals(events[1..])
  }

  predicate HasFatal(events: seq<Event>) {
    exists k :: 0 <= k < |events| && events[k].outcome.Fatal?
  }

  /** A wake-up without events is taken for the sweep. */
  function WakeInputs(wake: Wake): seq<Input> {
    match wake
    case WaitFails => []
    case Quiet(now) => [Sweep(now)]
    case Ready(events) => Arrivals(events)
  }

  predicate Stops(wake: Wake) {
    wake.WaitFails? || (wake.Ready? && HasFatal(wake.events))
  }

  /** The inputs that the worker handles before it stops for good. */
  function Inputs(script: seq<Wake>): seq<Input> {
    if script == [] then []
    else WakeInputs(script[0]) + if Stops(script[0]) then [] else Inputs(script[1..])
  }

  lemma {:induction false} RunConcat(r: Relay, a: seq<Input>, b: seq<Input>)
    ensures Run(r, a + b).relay == Run(Run(r, a).relay, b).relay
    ensures Run(r, a + b).out == Run(r, a).out + Run(Run(r, a).relay, b).out
    decreases |a|
  {
    if a == [] {
      assert a + b == b;
    } else {
      var first, rest := a[0], a[1..];
      assert a == [first] + rest && a + b == [first] + (rest + b);
      RunConcat(Step(r, first).relay, rest, b);
      RunConcatStep(r, first, rest, b);
    }
  }

  lemma {:induction false} RunConcatStep(r: Relay, first: Input, rest: seq<Input>, b: seq<Input>)
    requires var later := Run(Step(r, first).relay, rest);
      var whole, last := Run(Step(r, first).relay, rest + b), Run(later.relay, b);
      whole.relay == last.relay && whole.out == later.out + last.out
    ensures var done, whole := Run(r, [first] + rest), Run(r, [first] + (rest + b));
      var last := Run(done.relay, b);
      whole.relay == last.relay && whole.out == done.out + last.out
  {
    var later := Run(Step(r, first).relay, rest);
    RunStep(r, [first] + rest, first, rest);
    RunStep(r, [first] + (rest + b), first, rest + b);
    Glue(Step(r, first).out, later, Run(Step(r, first).relay, rest + b), Run(later.relay, b),
         Run(r, [first] + rest), Run(r, [first] + (rest + b)));
  }

  /** What two runs emit, one the continuation of the other, after a common first step. */
  lemma {:induction false} Glue(first: seq<Out>, later: Effect, whole: Effect, last: Effect, a: Effect, ab: Effect)
    requires whole.out == later.out + last.out
    requires a.out == first + later.out && ab.out == first + whole.out
    ensures ab.out == a.out + last.out
  {
  }

  lemma {:induction false} RunStep(r: Relay, inputs: seq<Input>, first: Input, rest: seq<Input>)
    requires inputs == [first] + rest
    ensures Run(r, inputs).relay == Run(Step(r, first).relay, rest).relay
    ensures Run(r, inputs).out == Step(r, first).out + Run(Step(r, first).relay, rest).out
  {
    assert inputs[1..] == rest;
  }

  lemma {:induction false} LegalConcat(r: Relay, a: seq<Input>, b: seq<Input>)
    ensures LegalRun(r, a + b) <==> LegalRun(r, a) && LegalRun(Run(r, a).relay, b)
    decreases |a|
  {
    if a == [] {
      assert a + b == b;
    } else {
      LegalConcat(Step(r, a[0]).relay, a[1..], b);
      assert (a + b)[1..] == a[1..] + b;
    }
  }

  lemma {:induction false} RunOne(r: Relay, input: Input)
    ensures Run(r, [input]).relay == Step(r, input).relay && Run(r, [input]).out == Step(r, input).out
    ensures LegalRun(r, [input]) ==> Legal(r, input)
  {
    assert [input] == [input] + [];
    RunStep(r, [input], input, []);
  }
}
