/**
 The ring between operations: with nothing in flight it is at rest and stands for a queue, and an
 operation that runs alone works on that queue as the single-threaded pool does.
 */
module RingQueue {
  import opened Ring
  import opened RingSolo
  import opened RingOwnership
  import opened RingTickets
  import opened RingProgress
  import opened SequentialPool

  ghost predicate Resting(s: State) {
    AtRest(s.buffers, s.status, s.head, s.tail)
  }

  ghost function QueueOf(s: State): seq<Buffer>
    requires Resting(s)
  {
    Queue(s.buffers, s.status, s.head, s.tail)
  }

  lemma {:induction false} StepsModulo(H: nat, T: nat)
    requires 0 <= T - H < SLOTS
    ensures Steps(H % SLOTS, T % SLOTS) == T - H
  {
    IndexAhead(H, T - H);
  }

  /** The first ticket from `H` on that has index `i`. */
  lemma {:induction false} FirstOfIndex(H: nat, i: Index)
    ensures (H + Steps(H % SLOTS, i)) % SLOTS == i
  {
    IndexAhead(H, Steps(H % SLOTS, i));
  }

  /** The stretch between the indices is the window of the tickets, seen modulo SLOTS. */
  lemma {:induction false} StretchIsWindow(H: nat, T: nat, i: Index)
    requires 0 <= T - H < SLOTS
    ensures InStretch(H % SLOTS, T % SLOTS, i) <==> exists k: nat :: H <= k < T && k % SLOTS == i
  {
    StepsModulo(H, T);
    FirstOfIndex(H, i);
    if k: nat :| H <= k < T && k % SLOTS == i {
      StepsModulo(H, k);
    }
  }

  /** A window of a whole lap: the indices meet, and every slot has a ticket. */
  lemma {:induction false} WholeLap(H: nat, T: nat, i: Index)
    requires T - H == SLOTS
    ensures H % SLOTS == T % SLOTS
    ensures exists k: nat :: H <= k < T && k % SLOTS == i
  {
    FirstOfIndex(H, i);
    var k := H + Steps(H % SLOTS, i);
    assert H <= k < T && k % SLOTS == i;
  }

  /**
   Whenever no operation is in flight, in every interleaving: the ring is at rest, and stands for a
   queue of as many buffers as there are tickets between the counters, if and only if these are at
   most 1023. The one exception is a pool in which all slots are available and which the
   indices show as empty; it does not occur if every win had room.
   */
  lemma {:induction false} QuiescentIsQueue(threads: nat, run: seq<Action>)
    requires IsRun(Init(threads), run) && Quiescent(Exec(Init(threads), run))
    ensures var g := ExecTickets(Start(threads), run);
      var s := g.ring;
      && (Resting(s) <==> g.T - g.H <= 1023)
      && (Resting(s) ==> |QueueOf(s)| == g.T - g.H)
      && (!Resting(s) ==> s.head == s.tail && forall i: Index :: s.status[i] == Available)
      && (RoomRun(Init(threads), run) ==> Resting(s))
  {
    OwnershipInit(threads);
    OwnershipRun(Init(threads), run);
    var g := ExecTickets(Start(threads), run);
    QuiescentWindow(threads, run, 0);
    forall i: Index
      ensures g.T - g.H < SLOTS ==> SlotOk(g.ring.buffers, g.ring.status, g.ring.head, g.ring.tail, i)
      ensures g.T - g.H == SLOTS ==> g.ring.head == g.ring.tail && g.ring.status[i] == Available
    {
      QuiescentWindow(threads, run, i);
      assert SlotIdleOk(g.ring, i);
      if g.T - g.H < SLOTS { StretchIsWindow(g.H, g.T, i); } else { WholeLap(g.H, g.T, i); }
    }
    if g.T - g.H < SLOTS {
      StepsModulo(g.H, g.T);
    } else {
      assert !SlotOk(g.ring.buffers, g.ring.status, g.ring.head, g.ring.tail, 0);
    }
    if RoomRun(Init(threads), run) {
      TicketStart(threads);
      TicketRun(Start(threads), run);
    }
  }

  /** `b` went from the callers' hands to the end of the queue, or was freed because the queue is full. */
  ghost predicate Appended(s: State, s': State, b: Buffer) {
    && Resting(s) && Resting(s') && s'.threads == s.threads
    && s'.hands == s.hands - {b}
    && (if |QueueOf(s)| < 1023
        then QueueOf(s') == QueueOf(s) + [b] && s'.freed == s.freed
        else QueueOf(s') == QueueOf(s) && s'.freed == s.freed + {b})
  }

  /** The oldest buffer went from the queue to the callers' hands, or a fresh one if the queue is empty. */
  ghost predicate Popped(s: State, s': State) {
    && Resting(s) && Resting(s') && s'.threads == s.threads && s'.freed == s.freed
    && (if QueueOf(s) != []
        then QueueOf(s) == [QueueOf(s)[0]] + QueueOf(s') && s'.hands == s.hands + {QueueOf(s)[0]} && s'.next == s.next
        else QueueOf(s') == [] && s'.hands == s.hands + {s.next} && s'.next == s.next + 1)
  }

  /** A return that runs alone appends its buffer, or frees it when the queue is full, and never waits. */
  lemma {:induction false} SoloReturnAppends(s: State, p: nat, b: Buffer, run: seq<Action>)
    requires Resting(s) && Alone(run, p) && IsRun(s, [StartReturn(p, b)] + run)
    ensures var s' := Exec(s, [StartReturn(p, b)] + run);
      p < |s'.threads| && if s'.threads[p] == Idle then Appended(s, s', b) else Progresses(s', p)
  {
    FullMeansMeeting(s.head, s.tail);
    if Succ(s.tail) != s.head {
      PushNewest(s.buffers, s.status, s.head, s.tail, b);
    }
    SoloReturn(s, p, b, run);
  }

  /** An obtain that runs alone hands out the oldest buffer, or a fresh one when the queue is empty, and never waits. */
  lemma {:induction false} SoloObtainPops(s: State, p: nat, run: seq<Action>)
    requires Resting(s) && Alone(run, p) && IsRun(s, [StartObtain(p)] + run)
    ensures var s' := Exec(s, [StartObtain(p)] + run);
      p < |s'.threads| && if s'.threads[p] == Idle then Popped(s, s') else Progresses(s', p)
  {
    FullMeansMeeting(s.head, s.tail);
    if s.head != s.tail {
      PopOldest(s.buffers, s.status, s.head, s.tail);
      assert QueueOf(s) == [s.buffers[s.head].value] + QueueOf(Obtained(s));
    }
    SoloObtain(s, p, run);
  }
}
