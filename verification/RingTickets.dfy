/**
 Tickets: the ring's indices counted without the wrap-around.

 `H` and `T` count the successful reservations of `head` and `tail` since the start; the ring
 only ever sees them modulo SLOTS. A thread that loads the indices, finds them apart and then
 sleeps while a counter makes a full lap may win its compare-exchange although its test would
 fail by now. `HasRoom` says that the test still holds at the win. It is the exact condition for
 the ring to hold a window of at most SLOTS - 1 tickets; a win within the lap always meets it.
 */
module RingTickets {
  import opened Wrappers
  import opened Ring
  import opened RingOwnership

  /**
   A ring with its books of tickets. `own[p]` is the ticket behind the index that thread `p` is
   to compare or, once it has won, the ticket it reserved; `other[p]` is the ticket behind the
   opposite index it loaded.
   */
  datatype Ticketed = Ticketed(ring: State, H: nat, T: nat, own: seq<nat>, other: seq<nat>)

  function Start(threads: nat): Ticketed {
    Ticketed(Init(threads), 0, 0, seq(threads, _ => 0), seq(threads, _ => 0))
  }

  predicate Shaped(g: Ticketed) {
    |g.own| == |g.ring.threads| == |g.other|
  }

  predicate WinsHead(s: State, a: Action) {
    a.Step? && a.p < |s.threads| && s.threads[a.p].ObtainCas? && s.head == s.threads[a.p].h
  }

  predicate WinsTail(s: State, a: Action) {
    a.Step? && a.p < |s.threads| && s.threads[a.p].ReturnCas? && s.tail == s.threads[a.p].t
  }

  /** The books kept beside one action: the ring moves as it does without them. */
  function Annotate(g: Ticketed, a: Action): (g': Ticketed)
    requires Shaped(g) && Enabled(g.ring, a)
    ensures Shaped(g') && g'.ring == Apply(g.ring, a)
  {
    var ring := Apply(g.ring, a);
    if !a.Step? then g.(ring := ring)
    else match g.ring.threads[a.p]
         case ObtainLoadHead => g.(ring := ring, own := g.own[a.p := g.H])
         case ObtainLoadTail(_) => g.(ring := ring, other := g.other[a.p := g.T])
         case ObtainCas(_) =>
           if WinsHead(g.ring, a) then g.(ring := ring, H := g.H + 1, own := g.own[a.p := g.H]) else g.(ring := ring)
         case ReturnLoadTail(_) => g.(ring := ring, own := g.own[a.p := g.T])
         case ReturnLoadHead(_, _) => g.(ring := ring, other := g.other[a.p := g.H])
         case ReturnCas(_, _) =>
           if WinsTail(g.ring, a) then g.(ring := ring, T := g.T + 1, own := g.own[a.p := g.T]) else g.(ring := ring)
         case _ => g.(ring := ring)
  }

  /**
   A compare-exchange that wins would pass its thread's test of the two indices again: they are
   still apart when `head` is reserved, and the ring is still not full when `tail` is.
   */
  predicate HasRoom(s: State, a: Action) {
    && (WinsHead(s, a) ==> s.head != s.tail)
    && (WinsTail(s, a) ==> Succ(s.tail) != s.head)
  }

  predicate RoomRun(s: State, run: seq<Action>)
    decreases |run|
  {
    run == [] || (Enabled(s, run[0]) && HasRoom(s, run[0]) && RoomRun(Apply(s, run[0]), run[1..]))
  }

  /**
   Fewer than SLOTS reservations of a counter happened between a thread's load of it and the
   compare-exchange on it that it now wins.
   */
  predicate NoLap(g: Ticketed, a: Action)
    requires Shaped(g)
  {
    && (WinsHead(g.ring, a) ==> g.H - g.own[a.p] < SLOTS)
    && (WinsTail(g.ring, a) ==> g.T - g.own[a.p] < SLOTS)
  }

  predicate NoLapRun(g: Ticketed, run: seq<Action>)
    requires Shaped(g)
    decreases |run|
  {
    run == [] || (Enabled(g.ring, run[0]) && NoLap(g, run[0]) && NoLapRun(Annotate(g, run[0]), run[1..]))
  }

  function ExecTickets(g: Ticketed, run: seq<Action>): (g': Ticketed)
    requires Shaped(g) && IsRun(g.ring, run)
    ensures Shaped(g') && g'.ring == Exec(g.ring, run)
    decreases |run|
  {
    if run == [] then g else ExecTickets(Annotate(g, run[0]), run[1..])
  }

  /** What a thread's loaded and reserved indices say about the tickets behind them. */
  predicate PcTickets(pc: Pc, own: nat, other: nat, H: nat, T: nat) {
    match pc
    case ObtainLoadTail(h) => own <= H && h == own % SLOTS
    case ObtainCas(h) => own <= H && h == own % SLOTS && other <= T && (own == H ==> own < other)
    case LoadClaim(h) => own < H && h == own % SLOTS
    case ReturnLoadHead(_, t) => own <= T && t == own % SLOTS
    case ReturnCas(_, t) => own <= T && t == own % SLOTS && other <= H && (own == T ==> own + 1 - other < SLOTS)
    case StoreClaim(_, t) => own < T && t == own % SLOTS
    case _ => true
  }

  /** The indices are the counters modulo SLOTS. */
  predicate IndexInv(g: Ticketed) {
    Shaped(g) && g.ring.head == g.H % SLOTS && g.ring.tail == g.T % SLOTS
  }

  /** The window [H, T) holds at most SLOTS - 1 tickets. */
  predicate Bounded(g: Ticketed) {
    0 <= g.T - g.H <= SLOTS - 1
  }

  predicate TicketInv(g: Ticketed) {
    && IndexInv(g)
    && Bounded(g)
    && forall p :: 0 <= p < |g.ring.threads| ==> PcTickets(g.ring.threads[p], g.own[p], g.other[p], g.H, g.T)
  }

  lemma {:induction false} TicketStart(threads: nat)
    ensures TicketInv(Start(threads))
  {
  }

  /** Less than a lap further on: the index goes round at most once. */
  lemma {:induction false} IndexAhead(k: nat, d: nat)
    requires d < SLOTS
    ensures (k + d) % SLOTS == if k % SLOTS + d < SLOTS then k % SLOTS + d else k % SLOTS + d - SLOTS
  {
    var q, r := k / SLOTS, k % SLOTS;
    assert k + d == SLOTS * q + (r + d);
  }

  /** Two tickets less than a lap apart that share an index are the same ticket. */
  lemma {:induction false} SameTicket(k: nat, n: nat)
    requires k <= n && n - k < SLOTS && k % SLOTS == n % SLOTS
    ensures k == n
  {
    IndexAhead(k, n - k);
  }

  lemma {:induction false} SuccIndex(k: nat)
    ensures Succ(k % SLOTS) == (k + 1) % SLOTS
  {
    IndexAhead(k, 1);
  }

  /** In every interleaving the indices follow the counters. */
  lemma {:induction false} IndexStep(g: Ticketed, a: Action)
    requires IndexInv(g) && Enabled(g.ring, a)
    ensures IndexInv(Annotate(g, a))
  {
    SuccIndex(g.H);
    SuccIndex(g.T);
  }

  /** Counters only grow, so what a thread knows about its tickets survives the others' steps. */
  lemma {:induction false} PcTicketsMonotone(pc: Pc, own: nat, other: nat, H: nat, T: nat, H': nat, T': nat)
    requires PcTickets(pc, own, other, H, T) && H <= H' && T <= T'
    ensures PcTickets(pc, own, other, H', T')
  {
  }

  /** The frame of one step: thread `p` and its tickets move, and the counters do not go back. */
  lemma {:induction false} TicketFrame(g: Ticketed, g': Ticketed, p: nat)
    requires TicketInv(g) && Shaped(g') && p < |g.ring.threads| == |g'.ring.threads|
    requires forall q :: 0 <= q < |g.ring.threads| && q != p ==>
      g'.ring.threads[q] == g.ring.threads[q] && g'.own[q] == g.own[q] && g'.other[q] == g.other[q]
    requires g.H <= g'.H && g.T <= g'.T && Bounded(g') && IndexInv(g')
    requires PcTickets(g'.ring.threads[p], g'.own[p], g'.other[p], g'.H, g'.T)
    ensures TicketInv(g')
  {
    forall q | 0 <= q < |g.ring.threads| && q != p
      ensures PcTickets(g'.ring.threads[q], g'.own[q], g'.other[q], g'.H, g'.T)
    {
      PcTicketsMonotone(g.ring.threads[q], g.own[q], g.other[q], g.H, g.T, g'.H, g'.T);
    }
  }

  /** The test of the indices is a test of the counters. */
  lemma {:induction false} RoomInTickets(g: Ticketed, a: Action)
    requires TicketInv(g)
    ensures HasRoom(g.ring, a)
       <==> (WinsHead(g.ring, a) ==> g.H < g.T) && (WinsTail(g.ring, a) ==> g.T - g.H < SLOTS - 1)
  {
    Meeting(g.H, g.T);
  }

  lemma {:induction false} Meeting(H: nat, T: nat)
    requires 0 <= T - H <= SLOTS - 1
    ensures H % SLOTS == T % SLOTS <==> H == T
    ensures Succ(T % SLOTS) == H % SLOTS <==> T - H == SLOTS - 1
  {
    IndexAhead(H, T - H);
  }

  /** The window stays within its bound in exactly those steps whose win, if there is one, has room. */
  lemma {:induction false} RoomExactly(g: Ticketed, a: Action)
    requires TicketInv(g) && Enabled(g.ring, a)
    ensures Bounded(Annotate(g, a)) <==> HasRoom(g.ring, a)
  {
    RoomInTickets(g, a);
  }

  /**
   A compare-exchange won within the lap is won with the current ticket, and then it has room,
   although the other index was loaded earlier.
   */
  lemma {:induction false} WinIsExact(g: Ticketed, a: Action)
    requires TicketInv(g) && Enabled(g.ring, a) && NoLap(g, a)
    ensures WinsHead(g.ring, a) ==> g.own[a.p] == g.H && g.H < g.T
    ensures WinsTail(g.ring, a) ==> g.own[a.p] == g.T && g.T - g.H < SLOTS - 1
    ensures HasRoom(g.ring, a)
  {
    if WinsHead(g.ring, a) {
      assert PcTickets(g.ring.threads[a.p], g.own[a.p], g.other[a.p], g.H, g.T);
      SameTicket(g.own[a.p], g.H);
    }
    if WinsTail(g.ring, a) {
      assert PcTickets(g.ring.threads[a.p], g.own[a.p], g.other[a.p], g.H, g.T);
      SameTicket(g.own[a.p], g.T);
    }
    RoomInTickets(g, a);
  }

  /** The counters after a step, and what thread `p` then knows of its tickets. */
  predicate MoverOk(g: Ticketed, g': Ticketed, p: nat)
    requires Shaped(g') && p < |g'.ring.threads|
  {
    && g.H <= g'.H && g.T <= g'.T && Bounded(g')
    && PcTickets(g'.ring.threads[p], g'.own[p], g'.other[p], g'.H, g'.T)
  }

  lemma {:induction false} CasMover(g: Ticketed, p: nat)
    requires TicketInv(g) && Enabled(g.ring, Step(p)) && HasRoom(g.ring, Step(p))
    requires g.ring.threads[p].ObtainCas? || g.ring.threads[p].ReturnCas?
    ensures MoverOk(g, Annotate(g, Step(p)), p)
  {
    RoomExactly(g, Step(p));
  }

  lemma {:induction false} ObtainTestMover(g: Ticketed, p: nat)
    requires TicketInv(g) && Enabled(g.ring, Step(p)) && g.ring.threads[p].ObtainLoadTail?
    ensures MoverOk(g, Annotate(g, Step(p)), p)
  {
    assert PcTickets(g.ring.threads[p], g.own[p], g.other[p], g.H, g.T);
  }

  lemma {:induction false} ReturnTestMover(g: Ticketed, p: nat)
    requires TicketInv(g) && Enabled(g.ring, Step(p)) && g.ring.threads[p].ReturnLoadHead?
    ensures MoverOk(g, Annotate(g, Step(p)), p)
  {
    assert PcTickets(g.ring.threads[p], g.own[p], g.other[p], g.H, g.T);
    Meeting(g.H, g.T);
  }

  lemma {:induction false} TicketThread(g: Ticketed, p: nat)
    requires TicketInv(g) && Enabled(g.ring, Step(p)) && HasRoom(g.ring, Step(p))
    ensures MoverOk(g, Annotate(g, Step(p)), p)
  {
    var pc := g.ring.threads[p];
    if pc.ObtainCas? || pc.ReturnCas? {
      CasMover(g, p);
    } else if pc.ObtainLoadTail? {
      ObtainTestMover(g, p);
    } else if pc.ReturnLoadHead? {
      ReturnTestMover(g, p);
    } else {
      assert PcTickets(pc, g.own[p], g.other[p], g.H, g.T);
    }
  }

  lemma {:induction false} OthersKeep(g: Ticketed, a: Action)
    requires Shaped(g) && Enabled(g.ring, a) && !a.Provide? && !a.Discard?
    ensures var g' := Annotate(g, a);
      && |g'.ring.threads| == |g.ring.threads|
      && forall q :: 0 <= q < |g.ring.threads| && q != a.p ==>
        g'.ring.threads[q] == g.ring.threads[q] && g'.own[q] == g.own[q] && g'.other[q] == g.other[q]
  {
  }

  lemma {:induction false} TicketStep(g: Ticketed, a: Action)
    requires TicketInv(g) && Enabled(g.ring, a) && HasRoom(g.ring, a)
    ensures TicketInv(Annotate(g, a))
  {
    var g' := Annotate(g, a);
    IndexStep(g, a);
    match a {
      case Provide =>
      case Discard(_) =>
      case Step(p) =>
        TicketThread(g, p);
        OthersKeep(g, a);
        TicketFrame(g, g', p);
      case _ =>
        assert PcTickets(g.ring.threads[a.p], g.own[a.p], g.other[a.p], g.H, g.T);
        OthersKeep(g, a);
        TicketFrame(g, g', a.p);
    }
  }

  /** The window is within its bound in every state of a run. */
  predicate BoundedRun(g: Ticketed, run: seq<Action>)
    requires Shaped(g) && IsRun(g.ring, run)
    decreases |run|
  {
    Bounded(g) && (run == [] || BoundedRun(Annotate(g, run[0]), run[1..]))
  }

  /**
   Occupancy, exactly: for any number of threads, a run keeps 0 to SLOTS - 1 tickets between the
   counters if and only if every compare-exchange that it wins has room, although `head` and `tail`
   are loaded separately before the compare-exchange.
   */
  lemma {:induction false} TicketRun(g: Ticketed, run: seq<Action>)
    requires TicketInv(g) && IsRun(g.ring, run)
    ensures BoundedRun(g, run) <==> RoomRun(g.ring, run)
    ensures RoomRun(g.ring, run) ==> TicketInv(ExecTickets(g, run))
    decreases |run|
  {
    if run != [] {
      RoomExactly(g, run[0]);
      if HasRoom(g.ring, run[0]) {
        TicketStep(g, run[0]);
        TicketRun(Annotate(g, run[0]), run[1..]);
      } else {
        assert !BoundedRun(Annotate(g, run[0]), run[1..]);
      }
    }
  }

  /** A run in which no winning compare-exchange is lapped has room at every win. */
  lemma {:induction false} NoLapHasRoom(g: Ticketed, run: seq<Action>)
    requires TicketInv(g) && IsRun(g.ring, run) && NoLapRun(g, run)
    ensures RoomRun(g.ring, run)
    decreases |run|
  {
    if run != [] {
      WinIsExact(g, run[0]);
      TicketStep(g, run[0]);
      NoLapHasRoom(Annotate(g, run[0]), run[1..]);
    }
  }

  /** The next access of thread `p` makes an obtain miss, whatever access it is. */
  predicate Misses(s: State, p: nat) {
    && Enabled(s, Step(p))
    && s.threads[p] != ObtainDone(None) && StepThread(s, p).threads[p] == ObtainDone(None)
  }

  /** The next access of thread `p` makes a return drop its buffer, whatever access it is. */
  predicate Drops(s: State, p: nat) {
    && Enabled(s, Step(p))
    && !s.threads[p].ReturnDrop? && StepThread(s, p).threads[p].ReturnDrop?
  }

  /**
   When an obtain misses, exactly: it has loaded `head`, it loads `tail` now, and the store counter is
   a multiple of SLOTS ahead of the ticket it loaded. Either that is 0, and then the window is empty;
   or it is a lap or more, and then the window may hold anything.
   */
  lemma {:induction false} MissExactly(g: Ticketed, p: nat)
    requires TicketInv(g) && Ownership(g.ring) && Enabled(g.ring, Step(p))
    ensures Misses(g.ring, p) <==> g.ring.threads[p].ObtainLoadTail? && (g.T - g.own[p]) % SLOTS == 0
    ensures Misses(g.ring, p) ==> g.own[p] == g.H == g.T || g.T - g.own[p] >= SLOTS
  {
    assert HolderOk(g.ring, g.ring.threads[p]);
    if g.ring.threads[p].ObtainLoadTail? {
      assert PcTickets(g.ring.threads[p], g.own[p], g.other[p], g.H, g.T);
      SameIndex(g.own[p], g.T);
    }
  }

  /**
   When a return drops its buffer, exactly: it has loaded `tail`, it loads `head` now, and either the
   window is full and `tail` has not moved since; or the load counter is one more than a multiple of
   SLOTS ahead of the ticket it loaded, and then the window may hold anything.
   */
  lemma {:induction false} DropExactly(g: Ticketed, p: nat)
    requires TicketInv(g) && Enabled(g.ring, Step(p))
    ensures Drops(g.ring, p) <==>
      && g.ring.threads[p].ReturnLoadHead?
      && if g.H <= g.own[p] then g.own[p] == g.T && g.T - g.H == SLOTS - 1
         else (g.H - g.own[p] - 1) % SLOTS == 0
  {
    var own := g.own[p];
    if g.ring.threads[p].ReturnLoadHead? {
      assert PcTickets(g.ring.threads[p], own, g.other[p], g.H, g.T);
      SuccIndex(own);
      if g.H <= own {
        Meeting(g.H, own);
      } else {
        SameIndex(own + 1, g.H);
      }
    }
  }

  /** Two tickets share an index exactly if whole laps lie between them. */
  lemma {:induction false} SameIndex(k: nat, n: nat)
    requires k <= n
    ensures k % SLOTS == n % SLOTS <==> (n - k) % SLOTS == 0
    ensures (n - k) % SLOTS == 0 ==> n == k || n - k >= SLOTS
  {
    var laps, d := (n - k) / SLOTS, (n - k) % SLOTS;
    assert n == (k + d) + SLOTS * laps;
    WholeLaps(k + d, laps);
    IndexAhead(k, d);
  }

  lemma {:induction false} WholeLaps(k: nat, laps: nat)
    ensures (k + SLOTS * laps) % SLOTS == k % SLOTS
  {
    var q, r := k / SLOTS, k % SLOTS;
    assert k + SLOTS * laps == SLOTS * (q + laps) + r;
  }

  /** A run from `g` to `m` in which no winning compare-exchange is lapped. */
  predicate NoLapTo(g: Ticketed, run: seq<Action>, m: Ticketed) {
    Shaped(g) && IsRun(g.ring, run) && NoLapRun(g, run) && ExecTickets(g, run) == m
  }

  lemma {:induction false} NoLapFirst(g: Ticketed, run: seq<Action>, m: Ticketed)
    requires NoLapTo(g, run, m) && run != []
    ensures Enabled(g.ring, run[0]) && NoLap(g, run[0]) && NoLapTo(Annotate(g, run[0]), run[1..], m)
  {
  }

  lemma {:induction false} NoLapCons(g: Ticketed, a: Action, rest: seq<Action>, m: Ticketed)
    requires Shaped(g) && Enabled(g.ring, a) && NoLap(g, a) && NoLapTo(Annotate(g, a), rest, m)
    ensures NoLapTo(g, [a] + rest, m)
  {
    assert ([a] + rest)[1..] == rest;
  }

  /** Such runs compose. */
  lemma {:induction false} NoLapConcat(g: Ticketed, a: seq<Action>, m: Ticketed, b: seq<Action>, z: Ticketed)
    requires NoLapTo(g, a, m) && NoLapTo(m, b, z)
    ensures NoLapTo(g, a + b, z)
    decreases |a|
  {
    if a == [] {
      assert a + b == b;
    } else {
      var first, rest := a[0], a[1..];
      NoLapFirst(g, a, m);
      NoLapConcat(Annotate(g, first), rest, m, b, z);
      NoLapCons(g, first, rest + b, z);
      assert a + b == [first] + (rest + b);
    }
  }
}
