/** The static UDP forwarder as a function of the events it gets, and what it keeps over every run. */
module ForwarderModel {
  import opened Wrappers
  import opened Net
  import opened Sequences

  datatype Target = Target(inbound: SocketAddress, outbound: SocketAddress, destination: SocketAddress)

  datatype Session = Session(
    inboundAddress: SocketAddress,
    outboundAddress: SocketAddress,
    source: SocketAddress,
    destination: SocketAddress,
    inboundSocket: int,
    outboundSocket: int)

  datatype Forwarder = Forwarder(sessions: seq<Session>, index: map<int, nat>)

  const UNKNOWN := SocketAddress(NoAddress, 0)

  /** What the system answers while one socket is set up. */
  datatype Opened = Opened(socket: Option<int>, bindOk: bool, watchOk: bool)
  datatype Answers = Answers(inbound: Opened, outbound: Opened)

  predicate Opens(address: SocketAddress, o: Opened) {
    address.IsValid() && o.socket.Some? && o.bindOk && o.watchOk
  }

  predicate TargetOpens(target: Target, a: Answers) {
    Opens(target.inbound, a.inbound) && Opens(target.outbound, a.outbound)
  }

  function NewSession(target: Target, a: Answers): Session
    requires TargetOpens(target, a)
  {
    Session(target.inbound, target.outbound, UNKNOWN, target.destination,
            a.inbound.socket.value, a.outbound.socket.value)
  }

  function AddTarget(f: Forwarder, target: Target, a: Answers): Forwarder
    requires TargetOpens(target, a)
  {
    var s := NewSession(target, a);
    var i := |f.sessions|;
    Forwarder(f.sessions + [s], Emplace(Emplace(f.index, s.inboundSocket, i), s.outboundSocket, i))
  }

  /** The targets set up in order, as far as the first one that fails. */
  function Setup(targets: seq<Target>, answers: seq<Answers>): Forwarder
    requires |targets| == |answers|
  {
    if targets == [] then Forwarder([], map[])
    else
      var n := |targets| - 1;
      var f := Setup(targets[..n], answers[..n]);
      if SetupOk(targets, answers) then AddTarget(f, targets[n], answers[n]) else f
  }

  predicate SetupOk(targets: seq<Target>, answers: seq<Answers>)
    requires |targets| == |answers|
  {
    forall i :: 0 <= i < |targets| ==> TargetOpens(targets[i], answers[i])
  }

  /** The sockets that a setup opens, in order. Nothing is closed during setup, so none comes twice. */
  function Sockets(answers: seq<Answers>): seq<int> {
    if answers == [] then []
    else Sockets(answers[..|answers| - 1]) + TargetSockets(answers[|answers| - 1])
  }

  predicate IndexOk(f: Forwarder) {
    && (forall i :: 0 <= i < |f.sessions| ==>
          && f.sessions[i].inboundSocket != f.sessions[i].outboundSocket
          && f.sessions[i].inboundSocket in f.index && f.index[f.sessions[i].inboundSocket] == i
          && f.sessions[i].outboundSocket in f.index && f.index[f.sessions[i].outboundSocket] == i)
    && (forall fd :: fd in f.index ==>
          && f.index[fd] < |f.sessions|
          && (fd == f.sessions[f.index[fd]].inboundSocket || fd == f.sessions[f.index[fd]].outboundSocket))
  }

  lemma {:induction false} AddKeepsIndex(f: Forwarder, target: Target, a: Answers)
    requires IndexOk(f) && TargetOpens(target, a)
    requires a.inbound.socket.value != a.outbound.socket.value
    requires a.inbound.socket.value !in f.index && a.outbound.socket.value !in f.index
    ensures IndexOk(AddTarget(f, target, a))
    ensures AddTarget(f, target, a).index.Keys == f.index.Keys + {a.inbound.socket.value, a.outbound.socket.value}
  {
  }

  /** A list without repetition, taken apart. */
  lemma {:induction false} DistinctParts(a: seq<int>, b: seq<int>)
    requires Distinct(a + b)
    ensures Distinct(a) && Distinct(b)
    ensures forall x :: x in b ==> x !in a
  {
    assert forall k :: 0 <= k < |a| ==> (a + b)[k] == a[k];
    assert forall k :: 0 <= k < |b| ==> (a + b)[|a| + k] == b[k];
  }

  /** The sockets opened for one target. */
  function TargetSockets(a: Answers): seq<int> {
    (if a.inbound.socket.Some? then [a.inbound.socket.value] else [])
      + (if a.outbound.socket.Some? then [a.outbound.socket.value] else [])
  }

  lemma {:induction false} TargetSocketsOpen(target: Target, a: Answers)
    requires TargetOpens(target, a) && Distinct(TargetSockets(a))
    ensures TargetSockets(a) == [a.inbound.socket.value, a.outbound.socket.value]
    ensures a.inbound.socket.value != a.outbound.socket.value
    ensures a.inbound.socket.value in TargetSockets(a) && a.outbound.socket.value in TargetSockets(a)
  {
    var list := TargetSockets(a);
    assert list[0] == a.inbound.socket.value && list[1] == a.outbound.socket.value;
  }

  /** A session as a target wants it: its addresses, the sockets opened for them, and no client known yet. */
  predicate FreshSession(s: Session, target: Target, a: Answers) {
    && s.inboundAddress == target.inbound
    && s.outboundAddress == target.outbound
    && s.destination == target.destination
    && Some(s.inboundSocket) == a.inbound.socket
    && Some(s.outboundSocket) == a.outbound.socket
    && s.source.address == NoAddress
  }

  /** A successful setup makes one session for each target, in order. */
  lemma {:induction false} SetupSessions(targets: seq<Target>, answers: seq<Answers>)
    requires |targets| == |answers| && SetupOk(targets, answers)
    ensures var sessions := Setup(targets, answers).sessions;
      && |sessions| == |targets|
      && forall i :: 0 <= i < |targets| ==> FreshSession(sessions[i], targets[i], answers[i])
    decreases |targets|
  {
    if targets != [] {
      var n := |targets| - 1;
      SetupSessions(targets[..n], answers[..n]);
      assert FreshSession(NewSession(targets[n], answers[n]), targets[n], answers[n]);
    }
  }

  /**
   The index that setup builds: each session's two sockets are distinct and lead to that session
   and to no other, and nothing else is in the index. If setup fails this holds of what was built.
   */
  lemma {:induction false} SetupIndex(targets: seq<Target>, answers: seq<Answers>)
    requires |targets| == |answers| && Distinct(Sockets(answers))
    ensures IndexOk(Setup(targets, answers))
    ensures forall fd :: fd in Setup(targets, answers).index ==> fd in Sockets(answers)
    decreases |targets|
  {
    if targets != [] {
      var n := |targets| - 1;
      var f := Setup(targets[..n], answers[..n]);
      DistinctParts(Sockets(answers[..n]), TargetSockets(answers[n]));
      SetupIndex(targets[..n], answers[..n]);
      if SetupOk(targets, answers) {
        assert TargetOpens(targets[n], answers[n]);
        TargetSocketsOpen(targets[n], answers[n]);
        AddKeepsIndex(f, targets[n], answers[n]);
        assert Setup(targets, answers) == AddTarget(f, targets[n], answers[n]);
      } else {
        assert Setup(targets, answers) == f;
      }
    }
  }

  /** After a successful setup, the index knows exactly the sockets that were opened. */
  lemma {:induction false} IndexIsSockets(targets: seq<Target>, answers: seq<Answers>)
    requires |targets| == |answers| && SetupOk(targets, answers) && Distinct(Sockets(answers))
    ensures forall fd :: fd in Setup(targets, answers).index <==> fd in Sockets(answers)
    decreases |targets|
  {
    if targets != [] {
      var n := |targets| - 1;
      DistinctParts(Sockets(answers[..n]), TargetSockets(answers[n]));
      SetupIndex(targets[..n], answers[..n]);
      IndexIsSockets(targets[..n], answers[..n]);
      TargetSocketsOpen(targets[n], answers[n]);
      AddKeepsIndex(Setup(targets[..n], answers[..n]), targets[n], answers[n]);
    }
  }

  // Running.

  /** One event: a failure that ends the worker, nothing to read, or a datagram. */
  datatype Event =
    | Failure
    | Nothing
    | Strange(fd: int)    // a datagram whose sender has no usable address
    | Datagram(fd: int, packet: Packet, from: SocketAddress, sendOk: bool)

  datatype Effect = Effect(forwarder: Forwarder, out: seq<Out>, stop: bool)

  function Forward(f: Forwarder, i: nat, packet: Packet, sendOk: bool): Effect
    requires i < |f.sessions|
  {
    var s := f.sessions[i];
    if !s.destination.IsValid() then Effect(f, [], true)
    else Effect(f, if sendOk then [Out(s.outboundSocket, s.destination, packet)] else [], false)
  }

  function Backward(f: Forwarder, i: nat, packet: Packet, from: SocketAddress, sendOk: bool): Effect
    requires i < |f.sessions|
  {
    var s := f.sessions[i];
    if from != s.destination || !s.source.IsValid() then Effect(f, [], false)
    else Effect(f, if sendOk then [Out(s.inboundSocket, s.source, packet)] else [], false)
  }

  function Step(f: Forwarder, e: Event): Effect {
    match e
    case Failure => Effect(f, [], true)
    case Nothing => Effect(f, [], false)
    case Strange(fd) => Effect(f, [], fd !in f.index)
    case Datagram(fd, packet, from, sendOk) =>
      if fd !in f.index || f.index[fd] >= |f.sessions| then Effect(f, [], true)
      else
        var i := f.index[fd];
        if fd == f.sessions[i].inboundSocket then
          Forward(f.(sessions := f.sessions[i := f.sessions[i].(source := from)]), i, packet, sendOk)
        else if fd == f.sessions[i].outboundSocket then Backward(f, i, packet, from, sendOk)
        else Effect(f, [], false)
  }

  function Run(f: Forwarder, events: seq<Event>): Effect
    decreases |events|
  {
    if events == [] then Effect(f, [], false)
    else
      var first := Step(f, events[0]);
      if first.stop then first
      else
        var rest := Run(first.forwarder, events[1..]);
        Effect(rest.forwarder, first.out + rest.out, rest.stop)
  }

  /** The sender of the latest datagram on a socket. */
  function LatestSource(history: seq<Event>, fd: int): SocketAddress {
    if history == [] then UNKNOWN
    else
      var last := history[|history| - 1];
      if last.Datagram? && last.fd == fd then last.from else LatestSource(history[..|history| - 1], fd)
  }

  /** Sessions differ from those of the setup in the learned source only. */
  predicate SameSetup(f: Forwarder, f0: Forwarder) {
    && f.index == f0.index
    && |f.sessions| == |f0.sessions|
    && forall i :: 0 <= i < |f.sessions| ==> f.sessions[i].(source := f0.sessions[i].source) == f0.sessions[i]
  }

  predicate Learned(f: Forwarder, history: seq<Event>) {
    forall i :: 0 <= i < |f.sessions| ==> f.sessions[i].source == LatestSource(history, f.sessions[i].inboundSocket)
  }

  /** A session learns the sender of a datagram on its inbound socket, and nothing else. */
  function Learn(f: Forwarder, e: Event): Forwarder {
    if e.Datagram? && e.fd in f.index && f.index[e.fd] < |f.sessions|
       && e.fd == f.sessions[f.index[e.fd]].inboundSocket
    then f.(sessions := f.sessions[f.index[e.fd] := f.sessions[f.index[e.fd]].(source := e.from)])
    else f
  }

  lemma {:induction false} StepLearns(f: Forwarder, e: Event)
    ensures Step(f, e).forwarder == Learn(f, e)
  {
  }

  lemma {:induction false} LearnKeepsIndex(f: Forwarder, f0: Forwarder, e: Event)
    requires IndexOk(f) && SameSetup(f, f0)
    ensures IndexOk(Learn(f, e)) && SameSetup(Learn(f, e), f0)
  {
  }

  lemma {:induction false} LearnKeepsLearned(f: Forwarder, history: seq<Event>, e: Event)
    requires IndexOk(f) && Learned(f, history)
    ensures Learned(Learn(f, e), history + [e])
  {
    var f', h' := Learn(f, e), history + [e];
    assert h'[..|h'| - 1] == history;
    forall i | 0 <= i < |f'.sessions|
      ensures f'.sessions[i].source == LatestSource(h', f'.sessions[i].inboundSocket)
    {
      assert f.sessions[i].source == LatestSource(history, f.sessions[i].inboundSocket);
    }
  }

  lemma {:induction false} RunRest(f: Forwarder, events: seq<Event>)
    requires events != [] && !Run(f, events).stop
    ensures !Run(Learn(f, events[0]), events[1..]).stop
    ensures Run(f, events).forwarder == Run(Learn(f, events[0]), events[1..]).forwarder
  {
    StepLearns(f, events[0]);
  }

  /** What a run keeps: the index, the setup, and that each session's source is the latest sender. */
  predicate Kept(f: Forwarder, f0: Forwarder, history: seq<Event>) {
    IndexOk(f) && SameSetup(f, f0) && Learned(f, history)
  }

  lemma {:induction false} LearnKeeps(f: Forwarder, f0: Forwarder, history: seq<Event>, e: Event)
    requires Kept(f, f0, history)
    ensures Kept(Learn(f, e), f0, history + [e])
  {
    LearnKeepsIndex(f, f0, e);
    LearnKeepsLearned(f, history, e);
  }

  lemma {:induction false} RunKeeps(f: Forwarder, f0: Forwarder, history: seq<Event>, events: seq<Event>)
    requires Kept(f, f0, history) && !Run(f, events).stop
    ensures Kept(Run(f, events).forwarder, f0, history + events)
    decreases |events|
  {
    if events == [] {
      assert history + events == history;
    } else {
      LearnKeeps(f, f0, history, events[0]);
      RunRest(f, events);
      RunKeeps(Learn(f, events[0]), f0, history + [events[0]], events[1..]);
      assert history + [events[0]] + events[1..] == history + events;
    }
  }

  lemma {:induction false} SetupUnknown(targets: seq<Target>, answers: seq<Answers>)
    requires |targets| == |answers|
    ensures forall s :: s in Setup(targets, answers).sessions ==> s.source == UNKNOWN
    decreases |targets|
  {
    if targets != [] {
      SetupUnknown(targets[..|targets| - 1], answers[..|targets| - 1]);
    }
  }

  /** What a successful setup leaves is a start: nothing is learned yet. */
  lemma {:induction false} SetupKept(targets: seq<Target>, answers: seq<Answers>)
    requires |targets| == |answers| && SetupOk(targets, answers) && Distinct(Sockets(answers))
    ensures Kept(Setup(targets, answers), Setup(targets, answers), [])
  {
    var f0 := Setup(targets, answers);
    SetupIndex(targets, answers);
    SetupSessions(targets, answers);
    SetupUnknown(targets, answers);
  }

  /** How one datagram is forwarded for the session set up as `s`, `source` being the last sender seen. */
  predicate Forwards(s: Session, source: SocketAddress, e: Event, effect: Effect)
    requires e.Datagram?
  {
    if e.fd == s.inboundSocket then
      && effect.stop == !s.destination.IsValid()
      && effect.out == if s.destination.IsValid() && e.sendOk
                       then [Out(s.outboundSocket, s.destination, e.packet)] else []
    else
      && e.fd == s.outboundSocket
      && !effect.stop
      && effect.out == if e.from == s.destination && source.IsValid() && e.sendOk
                       then [Out(s.inboundSocket, source, e.packet)] else []
  }

  lemma {:induction false} StepForwards(f: Forwarder, f0: Forwarder, history: seq<Event>, e: Event) returns (i: nat)
    requires Kept(f, f0, history) && e.Datagram? && e.fd in f0.index
    ensures i < |f0.sessions|
    ensures Forwards(f0.sessions[i], LatestSource(history, f0.sessions[i].inboundSocket), e, Step(f, e))
  {
    i := f.index[e.fd];
    assert f.sessions[i].(source := f0.sessions[i].source) == f0.sessions[i];
    assert f.sessions[i].source == LatestSource(history, f.sessions[i].inboundSocket);
  }

  /** `k` is the latest datagram of `history` that came in on socket `fd`. */
  predicate LatestOn(history: seq<Event>, fd: int, k: nat) {
    k < |history| && CameInOn(history[k], fd) && forall j :: k < j < |history| ==> !CameInOn(history[j], fd)
  }

  predicate CameInOn(e: Event, fd: int) {
    e.Datagram? && e.fd == fd
  }

  /** `LatestSource` is its sender; before the first one there is no address to send to. */
  lemma {:induction false} LatestSourceMeaning(history: seq<Event>, fd: int)
    ensures forall k: nat :: LatestOn(history, fd, k) ==> LatestSource(history, fd) == history[k].from
    ensures (forall k :: 0 <= k < |history| ==> !CameInOn(history[k], fd)) ==> !LatestSource(history, fd).IsValid()
    decreases |history|
  {
    if history != [] {
      var before, last := history[..|history| - 1], history[|history| - 1];
      if !CameInOn(last, fd) {
        LatestSourceMeaning(before, fd);
        forall k: nat | LatestOn(history, fd, k)
          ensures LatestSource(history, fd) == history[k].from
        {
          assert LatestOn(before, fd, k);
        }
      }
    }
  }

  /** A datagram on a target's inbound socket: on to the destination, through the outbound socket. */
  predicate SentOn(target: Target, a: Answers, e: Event, effect: Effect)
    requires e.Datagram? && a.outbound.socket.Some?
  {
    && effect.stop == !target.destination.IsValid()
    && effect.out == if target.destination.IsValid() && e.sendOk
                     then [Out(a.outbound.socket.value, target.destination, e.packet)] else []
  }

  /**
   A datagram on a target's outbound socket: only if it comes from the destination, and only once a
   client is known, back to the latest sender on the inbound socket, through that socket.
   */
  ghost predicate SentBack(target: Target, a: Answers, before: seq<Event>, e: Event, effect: Effect)
    requires e.Datagram? && a.inbound.socket.Some?
  {
    var inbound := a.inbound.socket.value;
    && !effect.stop
    && (forall k: nat :: LatestOn(before, inbound, k) ==>
          effect.out == if e.from == target.destination && before[k].from.IsValid() && e.sendOk
                        then [Out(inbound, before[k].from, e.packet)] else [])
    && ((forall k :: 0 <= k < |before| ==> !CameInOn(before[k], inbound)) ==> effect.out == [])
  }

  lemma {:induction false} ForwardsSpelledOut(s: Session, target: Target, a: Answers,
                                              before: seq<Event>, e: Event, effect: Effect)
    requires FreshSession(s, target, a) && e.Datagram?
    requires Forwards(s, LatestSource(before, s.inboundSocket), e, effect)
    ensures a.inbound.socket.Some? && a.outbound.socket.Some?
    ensures if a.inbound.socket == Some(e.fd) then SentOn(target, a, e, effect)
            else a.outbound.socket == Some(e.fd) && SentBack(target, a, before, e, effect)
  {
    LatestSourceMeaning(before, s.inboundSocket);
  }

  /**
   Over every run from a successful setup: a datagram on any of the sockets that were opened belongs
   to one of the targets. What arrives on the target's inbound socket goes, unchanged, to its
   destination through its outbound socket. What arrives on its outbound socket goes on only if it
   comes from that destination: through the inbound socket, to the last sender seen there, if any.
   */
  lemma {:induction false} ForwardsBothWays(targets: seq<Target>, answers: seq<Answers>, before: seq<Event>, e: Event)
    returns (i: nat)
    requires |targets| == |answers| && SetupOk(targets, answers) && Distinct(Sockets(answers))
    requires e.Datagram? && e.fd in Sockets(answers)
    requires !Run(Setup(targets, answers), before).stop
    ensures i < |targets| && answers[i].inbound.socket.Some? && answers[i].outbound.socket.Some?
    ensures var effect := Step(Run(Setup(targets, answers), before).forwarder, e);
      if answers[i].inbound.socket == Some(e.fd) then SentOn(targets[i], answers[i], e, effect)
      else answers[i].outbound.socket == Some(e.fd) && SentBack(targets[i], answers[i], before, e, effect)
  {
    var f0 := Setup(targets, answers);
    SetupKept(targets, answers);
    SetupSessions(targets, answers);
    IndexIsSockets(targets, answers);
    RunKeeps(f0, f0, [], before);
    assert [] + before == before;
    var f := Run(f0, before).forwarder;
    i := StepForwards(f, f0, before, e);
    ForwardsSpelledOut(f0.sessions[i], targets[i], answers[i], before, e, Step(f, e));
  }

  /**
   Over every such run: nothing else is sent. An event that is not a datagram, or is one on a socket
   that was not opened, emits nothing and changes no session.
   */
  lemma {:induction false} NothingElseSent(targets: seq<Target>, answers: seq<Answers>, before: seq<Event>, e: Event)
    requires |targets| == |answers| && SetupOk(targets, answers) && Distinct(Sockets(answers))
    requires !e.Datagram? || e.fd !in Sockets(answers)
    requires !Run(Setup(targets, answers), before).stop
    ensures var f := Run(Setup(targets, answers), before).forwarder;
      Step(f, e).out == [] && Step(f, e).forwarder == f
  {
    var f0 := Setup(targets, answers);
    SetupKept(targets, answers);
    IndexIsSockets(targets, answers);
    RunKeeps(f0, f0, [], before);
  }

  // Stopping.

  /** What ends the worker: a failure, an unknown socket, or a datagram for a target without an address. */
  predicate Ends(targets: seq<Target>, answers: seq<Answers>, e: Event)
    requires |targets| == |answers|
  {
    match e
    case Failure => true
    case Nothing => false
    case Strange(fd) => fd !in Sockets(answers)
    case Datagram(fd, _, _, _) =>
      || fd !in Sockets(answers)
      || exists i :: 0 <= i < |targets| && answers[i].inbound.socket == Some(fd) && !targets[i].destination.IsValid()
  }

  lemma {:induction false} StepStops(targets: seq<Target>, answers: seq<Answers>,
                                     f: Forwarder, history: seq<Event>, e: Event)
    requires |targets| == |answers| && SetupOk(targets, answers) && Distinct(Sockets(answers))
    requires Kept(f, Setup(targets, answers), history)
    ensures Step(f, e).stop <==> Ends(targets, answers, e)
  {
    var f0 := Setup(targets, answers);
    IndexIsSockets(targets, answers);
    SetupSessions(targets, answers);
    if e.Datagram? && e.fd in f0.index {
      var i := StepForwards(f, f0, history, e);
      assert FreshSession(f0.sessions[i], targets[i], answers[i]);
      SetupIndex(targets, answers);
      assert f0.index[f0.sessions[i].inboundSocket] == i && f0.index[f0.sessions[i].outboundSocket] == i;
      forall j | 0 <= j < |targets| && answers[j].inbound.socket == Some(e.fd)
        ensures j == i && e.fd == f0.sessions[i].inboundSocket
      {
        assert FreshSession(f0.sessions[j], targets[j], answers[j]);
        assert f0.index[f0.sessions[j].inboundSocket] == j;
      }
    }
  }

  /** Wherever a run from a successful setup stands, the events to come decide whether the worker stops. */
  lemma {:induction false} StopsFrom(targets: seq<Target>, answers: seq<Answers>,
                                     f: Forwarder, history: seq<Event>, events: seq<Event>)
    requires |targets| == |answers| && SetupOk(targets, answers) && Distinct(Sockets(answers))
    requires Kept(f, Setup(targets, answers), history)
    ensures Run(f, events).stop <==> exists k :: 0 <= k < |events| && Ends(targets, answers, events[k])
    decreases |events|
  {
    if events != [] {
      var e, rest := events[0], events[1..];
      StepStops(targets, answers, f, history, e);
      StepLearns(f, e);
      if !Step(f, e).stop {
        LearnKeeps(f, Setup(targets, answers), history, e);
        StopsFrom(targets, answers, Learn(f, e), history + [e], rest);
        assert forall k :: 0 <= k < |rest| ==> rest[k] == events[k + 1];
      }
    }
  }

  /** From a successful setup, the worker stops exactly if one of the events is of the kinds that end it. */
  lemma {:induction false} StopsExactly(targets: seq<Target>, answers: seq<Answers>, events: seq<Event>)
    requires |targets| == |answers| && SetupOk(targets, answers) && Distinct(Sockets(answers))
    ensures Run(Setup(targets, answers), events).stop
       <==> exists k :: 0 <= k < |events| && Ends(targets, answers, events[k])
  {
    SetupKept(targets, answers);
    StopsFrom(targets, answers, Setup(targets, answers), [], events);
  }

  /** What is emitted by one more event comes after what was emitted before, and nothing is handled after the stop. */
  lemma {:induction false} RunAppend(f: Forwarder, events: seq<Event>, e: Event)
    ensures var done, more := Run(f, events), Run(f, events + [e]);
      if done.stop then more == done
      else more.forwarder == Step(done.forwarder, e).forwarder && more.stop == Step(done.forwarder, e).stop
           && more.out == done.out + Step(done.forwarder, e).out
    decreases |events|
  {
    var all := events + [e];
    if events == [] {
      assert all[0] == e && all[1..] == [];
    } else {
      assert all[0] == events[0] && all[1..] == events[1..] + [e];
      if !Step(f, events[0]).stop {
        RunAppend(Step(f, events[0]).forwarder, events[1..], e);
      }
    }
  }
}
