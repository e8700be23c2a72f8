/**
 The expiry test and the loss counters of the relay, with the wrap-around of their machine words.
 */
module RelayCounters {
  import opened Net
  import opened RelayModel
  import opened RelayInvariants

  // Expiry.

  /** Idle for at most 600 seconds, as the wrapping subtraction sees it. */
  predicate RecentlyUsed(last: nat, now: nat) {
    if last <= now then now - last <= 600 else last - now >= 0x1_0000_0000_0000_0000 - 600
  }

  /**
   A sweep removes a session as soon as either direction was idle for more than 600 seconds, and
   also when the clock went back behind one of its timestamps (by anything short of a full turn).
   */
  lemma {:induction false} ExpiryExactly(s: Session, now: nat)
    requires s.lastTx < WORD64 && s.lastRx < WORD64 && now < WORD64
    ensures Expired(s, now) <==> !RecentlyUsed(s.lastRx, now) || !RecentlyUsed(s.lastTx, now)
  {
    Sub64Cases(now, s.lastRx);
    Sub64Cases(now, s.lastTx);
  }

  lemma {:induction false} Sub64Cases(a: nat, b: nat)
    requires a < WORD64 && b < WORD64
    ensures Sub64(a, b) == if b <= a then a - b else a + WORD64 - b
  {
  }

  /**
   The sweep as a filter: the sessions kept are those recently used in both directions, exactly the
   sockets of the others are closed, and the maps are inverse again.
   */
  lemma {:induction false} SweepFilters(r: Relay, now: nat)
    requires RelayInv(r) && now < WORD64
    ensures var r' := AfterSweep(r, now);
      && RelayInv(r')
      && (forall sid :: sid in r'.sessions <==>
            sid in r.sessions && RecentlyUsed(r.sessions[sid].lastRx, now) && RecentlyUsed(r.sessions[sid].lastTx, now))
      && (forall fd :: fd in r'.open <==>
            fd == r.inbound || (fd in r.fds && r.fds[fd] in r'.sessions))
      && (forall sid :: sid in r'.sessions ==> r'.sessions[sid].outboundSocket == r.sessions[sid].outboundSocket)
  {
    var r' := AfterSweep(r, now);
    SweepInv(r, now);
    forall sid | sid in r.sessions
      ensures sid in r'.sessions <==>
        RecentlyUsed(r.sessions[sid].lastRx, now) && RecentlyUsed(r.sessions[sid].lastTx, now)
    {
      assert SessionOk(r, sid);
      ExpiryExactly(r.sessions[sid], now);
    }
    forall fd
      ensures fd in r'.open <==> fd == r.inbound || (fd in r.fds && r.fds[fd] in r'.sessions)
    {
      if fd in r'.fds { assert FdOk(r', fd); }
      if fd in r.fds && r.fds[fd] in r'.sessions { assert FdOk(r, fd) && SessionOk(r', r.fds[fd]); }
    }
  }

  // Counters.

  /** What became of the packets of one direction since the last reset, in unbounded numbers. */
  datatype Tally = Tally(sent: nat, blocked: nat, refused: nat) {
    function Total(): nat {
      sent + blocked + refused
    }

    function Add(result: Send): Tally {
      match result
      case Sent(_) => this.(sent := sent + 1)
      case WouldBlock => this.(blocked := blocked + 1)
      case Refused => this.(refused := refused + 1)
    }
  }

  datatype Tallies = Tallies(tx: Tally, rx: Tally)

  const NO_PACKETS := Tallies(Tally(0, 0, 0), Tally(0, 0, 0))

  /** What `sendto` answered for the packets of session `sid`: counted anew after a report. */
  function Count(r: Relay, input: Input, sid: nat, t: Tallies): Tallies {
    if sid !in Step(r, input).relay.sessions then NO_PACKETS
    else match input
         case Sweep(_) =>
           if sid in r.sessions && (r.sessions[sid].droppedRx != 0 || r.sessions[sid].droppedTx != 0)
           then NO_PACKETS else t
         case Arrival(fd, packet, from, os) =>
           if fd == r.inbound then
             if SessionId(packet) == sid then t.(tx := t.tx.Add(Transmit(os.send, r.destination))) else t
           else if fd in r.fds && r.fds[fd] == sid && from == r.destination then t.(rx := t.rx.Add(os.send))
           else t
  }

  function CountRun(r: Relay, inputs: seq<Input>, sid: nat, t: Tallies): Tallies
    decreases |inputs|
  {
    if inputs == [] then t
    else CountRun(Step(r, inputs[0]).relay, inputs[1..], sid, Count(r, inputs[0], sid, t))
  }

  /** The counters of a session are the tallies modulo the 32-bit word. */
  predicate Matches(s: Session, t: Tallies) {
    && s.totalTx == t.tx.Total() % 0x1_0000_0000 && s.droppedTx == t.tx.blocked % 0x1_0000_0000
    && s.totalRx == t.rx.Total() % 0x1_0000_0000 && s.droppedRx == t.rx.blocked % 0x1_0000_0000
  }

  /** A missing session has no tallies. */
  predicate Accounted(r: Relay, sid: nat, t: Tallies) {
    if sid in r.sessions then Matches(r.sessions[sid], t) else t == NO_PACKETS
  }

  lemma {:induction false} Inc32Counts(n: nat)
    ensures Inc32(n % WORD32) == (n + 1) % WORD32
  {
  }

  lemma {:induction false} AddCounts(t: Tally, result: Send)
    ensures t.Add(result).Total() == t.Total() + 1
    ensures t.Add(result).blocked == t.blocked + if result.WouldBlock? then 1 else 0
  {
  }

  lemma {:induction false} TxMatches(s: Session, t: Tallies, from: SocketAddress, result: Send)
    requires Matches(s, t)
    ensures Matches(AfterTx(s, from, result), t.(tx := t.tx.Add(result)))
  {
    AddCounts(t.tx, result);
    Inc32Counts(t.tx.Total());
    Inc32Counts(t.tx.blocked);
    var s', t' := AfterTx(s, from, result), t.(tx := t.tx.Add(result));
    assert s'.totalTx == Inc32(s.totalTx) && t'.rx == t.rx;
    assert s'.droppedTx == if result.WouldBlock? then Inc32(s.droppedTx) else s.droppedTx;
  }

  lemma {:induction false} RxMatches(s: Session, t: Tallies, result: Send)
    requires Matches(s, t)
    ensures Matches(AfterRx(s, result), t.(rx := t.rx.Add(result)))
  {
    AddCounts(t.rx, result);
    Inc32Counts(t.rx.Total());
    Inc32Counts(t.rx.blocked);
    var s', t' := AfterRx(s, result), t.(rx := t.rx.Add(result));
    assert s'.totalRx == Inc32(s.totalRx) && t'.tx == t.tx;
    assert s'.droppedRx == if result.WouldBlock? then Inc32(s.droppedRx) else s.droppedRx;
  }

  /** A client packet of the session: it is counted in the session's counters and in the tally alike. */
  lemma {:induction false} ClientCounts(r: Relay, input: Input, sid: nat, t: Tallies) returns (s: Session)
    requires RelayInv(r) && input.Arrival? && input.fd == r.inbound && sid != 0 && SessionId(input.packet) == sid
    requires sid in Step(r, input).relay.sessions
    ensures var result := Transmit(input.os.send, r.destination);
      && Step(r, input).relay.sessions[sid] == AfterTx(s, input.from, result)
      && Count(r, input, sid, t) == t.(tx := t.tx.Add(result))
    ensures if sid in r.sessions then s == r.sessions[sid]
            else s.droppedRx == 0 && s.droppedTx == 0 && s.totalRx == 0 && s.totalTx == 0
  {
    var m := if sid in r.sessions then r else OpenSession(r, input.packet, sid, input.from, input.os);
    s := m.sessions[sid];
  }

  lemma {:induction false} OtherClient(r: Relay, input: Input, sid: nat, t: Tallies)
    requires RelayInv(r) && input.Arrival? && input.fd == r.inbound && SessionId(input.packet) != sid
    ensures sid in Step(r, input).relay.sessions <==> sid in r.sessions
    ensures sid in r.sessions ==> Step(r, input).relay.sessions[sid] == r.sessions[sid]
    ensures Count(r, input, sid, t) == if sid in r.sessions then t else NO_PACKETS
  {
  }

  lemma {:induction false} ClientAccounted(r: Relay, input: Input, sid: nat, t: Tallies)
    requires RelayInv(r) && Accounted(r, sid, t) && sid != 0
    requires input.Arrival? && input.fd == r.inbound
    ensures Accounted(Step(r, input).relay, sid, Count(r, input, sid, t))
  {
    if SessionId(input.packet) != sid {
      OtherClient(r, input, sid, t);
    } else if sid in Step(r, input).relay.sessions {
      var s := ClientCounts(r, input, sid, t);
      TxMatches(s, t, input.from, Transmit(input.os.send, r.destination));
    }
  }

  lemma {:induction false} ServerAccounted(r: Relay, input: Input, sid: nat, t: Tallies)
    requires RelayInv(r) && Legal(r, input) && Accounted(r, sid, t)
    requires input.Arrival? && input.fd != r.inbound
    ensures Accounted(Step(r, input).relay, sid, Count(r, input, sid, t))
  {
    UnknownBranchesUnreachable(r, input);
    var x := r.fds[input.fd];
    if input.from == r.destination && x == sid {
      RxMatches(r.sessions[sid], t, input.os.send);
    }
  }

  lemma {:induction false} AccountedStep(r: Relay, input: Input, sid: nat, t: Tallies)
    requires RelayInv(r) && Legal(r, input) && Accounted(r, sid, t) && sid != 0
    ensures Accounted(Step(r, input).relay, sid, Count(r, input, sid, t))
  {
    match input {
      case Sweep(_) =>
      case Arrival(fd, _, _, _) =>
        if fd == r.inbound { ClientAccounted(r, input, sid, t); } else { ServerAccounted(r, input, sid, t); }
    }
  }

  /**
   Along every run each session's counters are the true numbers since its last report, modulo the
   word: total = sent + would-block drops + other failures, and dropped = would-block drops.
   */
  lemma {:induction false} AccountedRun(r: Relay, inputs: seq<Input>, sid: nat, t: Tallies)
    requires RelayInv(r) && LegalRun(r, inputs) && Accounted(r, sid, t) && sid != 0
    ensures Accounted(Run(r, inputs).relay, sid, CountRun(r, inputs, sid, t))
    decreases |inputs|
  {
    if inputs != [] {
      AccountedStep(r, inputs[0], sid, t);
      StepInv(r, inputs[0]);
      AccountedRun(Step(r, inputs[0]).relay, inputs[1..], sid, Count(r, inputs[0], sid, t));
    }
  }

  /** The loss that a report shows, dropped over total, lies between 0 and 100 percent. */
  predicate LossInRange(dropped: nat, total: nat) {
    dropped <= if total > 1 then total else 1
  }

  /**
   Below 2^32 packets per direction since the last report, the counters are exact and the
   reported loss is in range. Without drops there is no report, so a session may well get there.
   */
  lemma {:induction false} LossReported(inbound: int, destination: SocketAddress, inputs: seq<Input>, sid: nat)
    requires inbound >= 0 && destination.IsValid() && sid != 0
    requires LegalRun(Start(inbound, destination), inputs)
    ensures var r := Start(inbound, destination);
      var t := CountRun(r, inputs, sid, NO_PACKETS);
      sid in Run(r, inputs).relay.sessions && t.tx.Total() < WORD32 && t.rx.Total() < WORD32 ==>
        var s := Run(r, inputs).relay.sessions[sid];
        && s.totalTx == t.tx.Total() && s.droppedTx == t.tx.blocked && LossInRange(s.droppedTx, s.totalTx)
        && s.totalRx == t.rx.Total() && s.droppedRx == t.rx.blocked && LossInRange(s.droppedRx, s.totalRx)
  {
    StartInv(inbound, destination);
    AccountedRun(Start(inbound, destination), inputs, sid, NO_PACKETS);
    var r := Run(Start(inbound, destination), inputs).relay;
    var t := CountRun(Start(inbound, destination), inputs, sid, NO_PACKETS);
    if sid in r.sessions && t.tx.Total() < WORD32 && t.rx.Total() < WORD32 {
      assert Matches(r.sessions[sid], t);
      Exact(t.tx);
      Exact(t.rx);
    }
  }

  lemma {:induction false} Exact(t: Tally)
    requires t.Total() < WORD32
    ensures t.Total() % WORD32 == t.Total() && t.blocked % WORD32 == t.blocked <= t.Total()
  {
  }

  // How far the counters can go.

  const NO_ANSWER := Answers(NoSocket, false, 0, Refused)

  /** The next packet of a session: of its client, or of the server for its socket. */
  function NextPacket(r: Relay, sid: nat, packet: Packet, fromClient: bool, result: Send): Input
    requires sid in r.sessions
  {
    var s := r.sessions[sid];
    if fromClient then Arrival(r.inbound, packet, s.source, NO_ANSWER.(send := result))
    else Arrival(s.outboundSocket, packet, r.destination, NO_ANSWER.(send := result))
  }

  /** One more answer of `sendto` in one direction. */
  function AddTo(t: Tallies, fromClient: bool, result: Send): Tallies {
    if fromClient then t.(tx := t.tx.Add(result)) else t.(rx := t.rx.Add(result))
  }

  function TallyOf(t: Tallies, fromClient: bool): Tally {
    if fromClient then t.tx else t.rx
  }

  lemma {:induction false} NextPacketCounts(r: Relay, sid: nat, packet: Packet, fromClient: bool, result: Send,
                                            t: Tallies)
    requires RelayInv(r) && sid in r.sessions && sid != 0 && SessionId(packet) == sid
    requires result.Sent? ==> result.at < WORD64
    ensures var input := NextPacket(r, sid, packet, fromClient, result);
      && Legal(r, input)
      && RelayInv(Step(r, input).relay)
      && sid in Step(r, input).relay.sessions
      && Count(r, input, sid, t) == AddTo(t, fromClient, result)
  {
    var input := NextPacket(r, sid, packet, fromClient, result);
    assert SessionOk(r, sid);
    StepInv(r, input);
  }

  /** A session can be sent any number of packets, of which the system takes any number. */
  lemma {:induction false} Continues(r: Relay, sid: nat, packet: Packet, fromClient: bool,
                                     sent: nat, blocked: nat, t: Tallies)
    returns (inputs: seq<Input>)
    requires RelayInv(r) && sid in r.sessions && sid != 0 && SessionId(packet) == sid
    ensures LegalRun(r, inputs) && sid in Run(r, inputs).relay.sessions
    ensures var t' := CountRun(r, inputs, sid, t);
      var before := TallyOf(t, fromClient);
      TallyOf(t', fromClient) == before.(sent := before.sent + sent, blocked := before.blocked + blocked)
    decreases sent + blocked
  {
    inputs := [];
    if sent + blocked > 0 {
      var result := if sent > 0 then Sent(0) else WouldBlock;
      var input := NextPacket(r, sid, packet, fromClient, result);
      NextPacketCounts(r, sid, packet, fromClient, result, t);
      var rest := Continues(Step(r, input).relay, sid, packet, fromClient,
                            if sent > 0 then sent - 1 else 0, if sent > 0 then blocked else blocked - 1,
                            AddTo(t, fromClient, result));
      inputs := [input] + rest;
      assert inputs[1..] == rest;
    }
  }

  /** A packet with session id 2^33 + 1: its second byte is 1, and the others are 0. */
  const FIRST_PACKET: Packet := seq(MIN_PACKET, k => if k == 1 then 1 else 0)
  const FIRST_ID: nat := 2 * WORD32 + 1

  lemma {:induction false} FirstPacketId()
    ensures SessionId(FIRST_PACKET) == FIRST_ID
  {
    ReservedBytes(FIRST_PACKET);
  }

  /** The first packet of a client, answered by `result`, opens its session. */
  lemma {:induction false} OpensSession(inbound: int, destination: SocketAddress, result: Send) returns (input: Input)
    requires inbound >= 0 && destination.IsValid() && (result.Sent? ==> result.at < WORD64)
    ensures var r := Start(inbound, destination);
      && Legal(r, input) && RelayInv(Step(r, input).relay) && FIRST_ID in Step(r, input).relay.sessions
      && Count(r, input, FIRST_ID, NO_PACKETS) == AddTo(NO_PACKETS, true, result)
  {
    input := Arrival(inbound, FIRST_PACKET, destination, Answers(Bound(inbound + 1, 0), true, 0, result));
    FirstPacketId();
    StartInv(inbound, destination);
    StepInv(Start(inbound, destination), input);
  }

  /** A run from the start after which session `sid` is there. */
  predicate SessionAfter(inbound: int, destination: SocketAddress, inputs: seq<Input>, sid: nat) {
    LegalRun(Start(inbound, destination), inputs) && sid in Run(Start(inbound, destination), inputs).relay.sessions
  }

  /** What happened to the session's packets of one direction since the last report. */
  function TallyAfter(inbound: int, destination: SocketAddress, inputs: seq<Input>, sid: nat, fromClient: bool): Tally {
    TallyOf(CountRun(Start(inbound, destination), inputs, sid, NO_PACKETS), fromClient)
  }

  /** The number of packets since the last report is not bounded: all numbers can come about. */
  lemma {:induction false} AnyTally(inbound: int, destination: SocketAddress, fromClient: bool, sent: nat, blocked: nat)
    returns (inputs: seq<Input>)
    requires inbound >= 0 && destination.IsValid() && (fromClient ==> sent + blocked > 0)
    ensures SessionAfter(inbound, destination, inputs, FIRST_ID)
    ensures TallyAfter(inbound, destination, inputs, FIRST_ID, fromClient) == Tally(sent, blocked, 0)
  {
    var r := Start(inbound, destination);
    var result := if sent > 0 then Sent(0) else WouldBlock;
    var input := OpensSession(inbound, destination, result);
    var sent', blocked' := sent, blocked;
    if fromClient {
      sent', blocked' := if sent > 0 then sent - 1 else 0, if sent > 0 then blocked else blocked - 1;
    }
    FirstPacketId();
    var rest := Continues(Step(r, input).relay, FIRST_ID, FIRST_PACKET, fromClient, sent', blocked',
                          AddTo(NO_PACKETS, true, result));
    inputs := [input] + rest;
    assert inputs[1..] == rest;
  }

  /** The counters a report would show for one direction: packets dropped, and packets in all. */
  function Dropped(s: Session, fromClient: bool): nat {
    if fromClient then s.droppedTx else s.droppedRx
  }

  function Total(s: Session, fromClient: bool): nat {
    if fromClient then s.totalTx else s.totalRx
  }

  lemma {:induction false} CountersAfter(inbound: int, destination: SocketAddress, inputs: seq<Input>, sid: nat,
                                         fromClient: bool)
    requires inbound >= 0 && destination.IsValid() && sid != 0 && SessionAfter(inbound, destination, inputs, sid)
    ensures var s := Run(Start(inbound, destination), inputs).relay.sessions[sid];
      var t := TallyAfter(inbound, destination, inputs, sid, fromClient);
      Dropped(s, fromClient) == t.blocked % WORD32 && Total(s, fromClient) == t.Total() % WORD32
  {
    StartInv(inbound, destination);
    AccountedRun(Start(inbound, destination), inputs, sid, NO_PACKETS);
  }

  /** In every session that any run leads to with `n` packets since the last report, the loss is in range. */
  ghost predicate LossSafe(inbound: int, destination: SocketAddress, fromClient: bool, n: nat) {
    forall inputs, sid ::
      SessionAfter(inbound, destination, inputs, sid) && sid != 0
      && TallyAfter(inbound, destination, inputs, sid, fromClient).Total() == n ==>
        var s := Run(Start(inbound, destination), inputs).relay.sessions[sid];
        LossInRange(Dropped(s, fromClient), Total(s, fromClient))
  }

  lemma {:induction false} Wrapped(n: nat)
    requires n < WORD32 || n % WORD32 == WORD32 - 1
    ensures forall dropped: nat :: dropped <= n ==> LossInRange(dropped % WORD32, n % WORD32)
  {
  }

  /**
   How many packets of one direction may go by before a report can show a loss out of range: it is
   in range in every session that any run leads to with `n` packets since the last report, exactly
   when `n` does not wrap, or has just not reached the next wrap.
   */
  lemma {:induction false} LossSafeExactly(inbound: int, destination: SocketAddress, fromClient: bool, n: nat)
    requires inbound >= 0 && destination.IsValid()
    ensures LossSafe(inbound, destination, fromClient, n) <==> (n < WORD32 || n % WORD32 == WORD32 - 1)
  {
    if n < WORD32 || n % WORD32 == WORD32 - 1 {
      forall inputs, sid | SessionAfter(inbound, destination, inputs, sid) && sid != 0
                           && TallyAfter(inbound, destination, inputs, sid, fromClient).Total() == n
        ensures var s := Run(Start(inbound, destination), inputs).relay.sessions[sid];
          LossInRange(Dropped(s, fromClient), Total(s, fromClient))
      {
        CountersAfter(inbound, destination, inputs, sid, fromClient);
        Wrapped(n);
      }
    } else {
      var inputs := AnyTally(inbound, destination, fromClient, n - (WORD32 - 1), WORD32 - 1);
      CountersAfter(inbound, destination, inputs, FIRST_ID, fromClient);
    }
  }

  /** A loss of 200 percent: 2^32 - 1 packets go through, then two are dropped; the report shows 2 of 1. */
  lemma {:induction false} LossCanExceed(inbound: int, destination: SocketAddress, fromClient: bool)
    returns (inputs: seq<Input>)
    requires inbound >= 0 && destination.IsValid()
    ensures SessionAfter(inbound, destination, inputs, FIRST_ID)
    ensures var s := Run(Start(inbound, destination), inputs).relay.sessions[FIRST_ID];
      Dropped(s, fromClient) == 2 && Total(s, fromClient) == 1
  {
    inputs := AnyTally(inbound, destination, fromClient, WORD32 - 1, 2);
    CountersAfter(inbound, destination, inputs, FIRST_ID, fromClient);
  }
}
