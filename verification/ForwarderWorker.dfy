/** The static forwarder in the source's own form: setup and worker update one context. */
module ForwarderWorker {
  import opened Wrappers
  import opened Net
  import opened ForwarderModel

  class ForwardContext {
    var sessions: seq<Session>
    var index: map<int, nat>
    var emitted: seq<Out>

    function Model(): Forwarder
      reads this
    {
      Forwarder(sessions, index)
    }

    constructor ()
      ensures Model() == Forwarder([], map[]) && emitted == []
    {
      sessions, index, emitted := [], map[], [];
    }

    /** Opens, binds and watches one socket. */
    method OpenSocket(address: SocketAddress, o: Opened) returns (socket: Option<int>)
      ensures socket == if Opens(address, o) then o.socket else None
    {
      if !address.IsValid() {
        return None;
      }
      if o.socket.None? {
        return None;
      }
      if !o.bindOk {
        return None;
      }
      if !o.watchOk {
        return None;
      }
      return o.socket;
    }

    /** Stops at the first failure and keeps what was built; sockets already open are not closed. */
    method SetupSockets(targets: seq<Target>, epollOk: bool, answers: seq<Answers>) returns (ok: bool)
      requires |targets| == |answers| && Model() == Forwarder([], map[])
      modifies this
      ensures ok <==> epollOk && forall i :: 0 <= i < |targets| ==>
        && targets[i].inbound.IsValid() && targets[i].outbound.IsValid()
        && answers[i].inbound.socket.Some? && answers[i].inbound.bindOk && answers[i].inbound.watchOk
        && answers[i].outbound.socket.Some? && answers[i].outbound.bindOk && answers[i].outbound.watchOk
      ensures ok ==> SetupOk(targets, answers) && |sessions| == |targets|
      ensures ok ==> forall i :: 0 <= i < |targets| ==> FreshSession(sessions[i], targets[i], answers[i])
      ensures Model() == if epollOk then Setup(targets, answers) else old(Model())
      ensures emitted == old(emitted)
    {
      if !epollOk {
        return false;
      }
      var i := 0;
      while i < |targets|
        invariant 0 <= i <= |targets|
        invariant SetupOk(targets[..i], answers[..i])
        invariant Model() == Setup(targets[..i], answers[..i])
        invariant |sessions| == i && emitted == old(emitted)
      {
        var target := targets[i];
        assert targets[..i + 1][..i] == targets[..i] && answers[..i + 1][..i] == answers[..i];
        var inboundSocket := OpenSocket(target.inbound, answers[i].inbound);
        if inboundSocket.None? {
          SetupStops(targets, answers, i);
          return false;
        }
        var outboundSocket := OpenSocket(target.outbound, answers[i].outbound);
        if outboundSocket.None? {
          SetupStops(targets, answers, i);
          return false;
        }
        sessions := sessions + [Session(target.inbound, target.outbound, UNKNOWN, target.destination,
                                        inboundSocket.value, outboundSocket.value)];
        index := Emplace(index, inboundSocket.value, i);
        index := Emplace(index, outboundSocket.value, i);
        i := i + 1;
      }
      assert targets[..i] == targets && answers[..i] == answers;
      SetupSessions(targets, answers);
      return true;
    }

    method SendTo(fd: int, packet: Packet, to: SocketAddress, sendOk: bool)
      modifies `emitted
      ensures emitted == old(emitted) + if sendOk then [Out(fd, to, packet)] else []
    {
      if sendOk {
        emitted := emitted + [Out(fd, to, packet)];
      }
    }

    method HandleDatagram(fd: int, packet: Packet, from: SocketAddress, sendOk: bool) returns (stop: bool)
      requires IndexOk(Model())
      modifies this
      ensures var effect := Step(old(Model()), Datagram(fd, packet, from, sendOk));
        Model() == effect.forwarder && emitted == old(emitted) + effect.out && stop == effect.stop
    {
      if fd !in index {
        return true;
      }
      var i := index[fd];
      var session := sessions[i];
      if fd == session.inboundSocket {
        if session.source != from {
          sessions := sessions[i := session.(source := from)];
        }
        if !session.destination.IsValid() {
          return true;
        }
        SendTo(session.outboundSocket, packet, session.destination, sendOk);
      } else if fd == session.outboundSocket {
        if from != session.destination {
          return false;
        }
        if !session.source.IsValid() {
          return false;
        }
        SendTo(session.inboundSocket, packet, session.source, sendOk);
      }
      return false;
    }

    /** One event; the worker stops at a failure. */
    method HandleEvent(event: Event) returns (stop: bool)
      requires IndexOk(Model())
      modifies this
      ensures var effect := Step(old(Model()), event);
        Model() == effect.forwarder && emitted == old(emitted) + effect.out && stop == effect.stop
    {
      match event {
        case Failure => stop := true;
        case Nothing => stop := false;
        case Strange(fd) => stop := fd !in index;
        case Datagram(fd, packet, from, sendOk) => stop := HandleDatagram(fd, packet, from, sendOk);
      }
    }

    /** The worker loop over the events of all batches, up to the one that ends it. */
    method RunWorker(events: seq<Event>)
      requires IndexOk(Model())
      modifies this
      ensures Model() == Run(old(Model()), events).forwarder
      ensures emitted == old(emitted) + Run(old(Model()), events).out
    {
      ghost var f, before := Model(), emitted;
      var i := 0;
      while i < |events|
        invariant 0 <= i <= |events|
        invariant IndexOk(Model())
        invariant Remaining(f, before, events, Model(), emitted, events[i..])
      {
        RemainingStep(f, before, events, Model(), emitted, events[i..]);
        StepLearns(Model(), events[i]);
        LearnKeepsIndex(Model(), Model(), events[i]);
        var stop := HandleEvent(events[i]);
        if stop {
          return;
        }
        assert events[i..][1..] == events[i + 1..];
        i := i + 1;
      }
    }
  }

  /** Of a run over `all`, started at `f` with `before` emitted, what is left is `rest`. */
  ghost predicate Remaining(f: Forwarder, before: seq<Out>, all: seq<Event>,
                            m: Forwarder, emitted: seq<Out>, rest: seq<Event>) {
    && Run(f, all).forwarder == Run(m, rest).forwarder
    && before + Run(f, all).out == emitted + Run(m, rest).out
  }

  /** Handling the next event leaves the rest, or nothing if it stops the worker. */
  lemma {:induction false} RemainingStep(f: Forwarder, before: seq<Out>, all: seq<Event>,
                                         m: Forwarder, emitted: seq<Out>, rest: seq<Event>)
    requires Remaining(f, before, all, m, emitted, rest) && rest != []
    ensures var effect := Step(m, rest[0]);
      if effect.stop
      then Run(f, all).forwarder == effect.forwarder && before + Run(f, all).out == emitted + effect.out
      else Remaining(f, before, all, effect.forwarder, emitted + effect.out, rest[1..])
  {
    var effect := Step(m, rest[0]);
    if !effect.stop {
      var later := Run(effect.forwarder, rest[1..]);
      assert emitted + (effect.out + later.out) == emitted + effect.out + later.out;
    }
  }

  /** The first target that does not open ends the setup. */
  lemma {:induction false} SetupStops(targets: seq<Target>, answers: seq<Answers>, i: nat)
    requires |targets| == |answers| && i < |targets|
    requires !TargetOpens(targets[i], answers[i])
    ensures !SetupOk(targets, answers)
    ensures Setup(targets, answers) == Setup(targets[..i], answers[..i])
    decreases |targets|
  {
    var n := |targets| - 1;
    if i < n {
      SetupStops(targets[..n], answers[..n], i);
      assert targets[..n][..i] == targets[..i] && answers[..n][..i] == answers[..i];
    }
  }
}
