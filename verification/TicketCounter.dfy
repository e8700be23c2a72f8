/**
 The simple form that the ring implements: a counter of loads and a counter of stores, taken one
 ticket at a time, never more than SLOTS - 1 apart.
 */
module TicketCounter {
  import opened Wrappers
  import opened Ring
  import opened RingTickets

  datatype Ticket = ToLoad(k: nat) | ToStore(k: nat)

  /** The counters, and for each thread the ticket it took and has not yet redeemed. */
  datatype Counter = Counter(H: nat, T: nat, taken: seq<Option<Ticket>>)

  predicate TakesLoad(c: Counter, c': Counter, p: nat) {
    && p < |c.taken| && c.taken[p] == None
    && c.H < c.T
    && c' == c.(H := c.H + 1, taken := c.taken[p := Some(ToLoad(c.H))])
  }

  predicate TakesStore(c: Counter, c': Counter, p: nat) {
    && p < |c.taken| && c.taken[p] == None
    && c.T - c.H < SLOTS - 1
    && c' == c.(T := c.T + 1, taken := c.taken[p := Some(ToStore(c.T))])
  }

  predicate Redeems(c: Counter, c': Counter, p: nat) {
    && p < |c.taken| && c.taken[p] != None
    && c' == c.(taken := c.taken[p := None])
  }

  predicate CounterStep(c: Counter, c': Counter, p: nat) {
    c' == c || TakesLoad(c, c', p) || TakesStore(c, c', p) || Redeems(c, c', p)
  }

  function TicketOf(pc: Pc, own: nat): Option<Ticket> {
    match pc
    case LoadClaim(_) => Some(ToLoad(own))
    case StoreClaim(_, _) => Some(ToStore(own))
    case _ => None
  }

  /** What the ticket counter sees of a ring. */
  function View(g: Ticketed): Counter
    requires Shaped(g)
  {
    Counter(g.H, g.T, seq(|g.own|, p requires 0 <= p < |g.own| => TicketOf(g.ring.threads[p], g.own[p])))
  }

  function Mover(a: Action): nat {
    if a.Provide? || a.Discard? then 0 else a.p
  }

  /** The view changes at most at the thread that moves. */
  lemma {:induction false} ViewFrame(g: Ticketed, a: Action)
    requires Shaped(g) && Enabled(g.ring, a) && !a.Provide? && !a.Discard?
    ensures var g' := Annotate(g, a);
      View(g').taken == View(g).taken[a.p := TicketOf(g'.ring.threads[a.p], g'.own[a.p])]
  {
    var g' := Annotate(g, a);
    assert forall q :: 0 <= q < |g.own| && q != a.p ==>
      g'.ring.threads[q] == g.ring.threads[q] && g'.own[q] == g.own[q];
  }

  /** A won compare-exchange takes the next ticket if it has room; without room the counter does not give it. */
  lemma {:induction false} WinRefines(g: Ticketed, a: Action)
    requires TicketInv(g) && Enabled(g.ring, a) && (WinsHead(g.ring, a) || WinsTail(g.ring, a))
    ensures HasRoom(g.ring, a) <==> CounterStep(View(g), View(Annotate(g, a)), Mover(a))
  {
    ViewFrame(g, a);
    RoomInTickets(g, a);
    assert View(g).taken[a.p] == None;
  }

  /** Any other step of a thread redeems the ticket of the thread or is not seen by the counter. */
  lemma {:induction false} OtherRefines(g: Ticketed, a: Action)
    requires TicketInv(g) && Enabled(g.ring, a) && !a.Provide? && !a.Discard?
    requires !WinsHead(g.ring, a) && !WinsTail(g.ring, a)
    ensures CounterStep(View(g), View(Annotate(g, a)), Mover(a))
  {
    ViewFrame(g, a);
    var before, after := View(g).taken[a.p], View(Annotate(g, a)).taken[a.p];
    assert before == TicketOf(g.ring.threads[a.p], g.own[a.p]);
    if before == after {
      assert View(Annotate(g, a)).taken == View(g).taken;
    }
  }

  /**
   The modular ring refines the ticket counter exactly as far as its wins have room: a step is a
   step of the counter if and only if its compare-exchange, if it wins one, would pass the test of
   the indices again. How old the winner's index is does not matter.
   */
  lemma {:induction false} RefinesCounter(g: Ticketed, a: Action)
    requires TicketInv(g) && Enabled(g.ring, a)
    ensures HasRoom(g.ring, a) <==> CounterStep(View(g), View(Annotate(g, a)), Mover(a))
  {
    if a.Provide? || a.Discard? {
      assert View(Annotate(g, a)).taken == View(g).taken;
    } else if WinsHead(g.ring, a) || WinsTail(g.ring, a) {
      WinRefines(g, a);
    } else {
      OtherRefines(g, a);
    }
  }

  // Runs.

  /** One thread's step of the counter. */
  ghost predicate SomeStep(c: Counter, c': Counter) {
    exists p :: CounterStep(c, c', p)
  }

  /** A behaviour of the counter: it starts with nothing taken, and each change is one thread's step. */
  ghost predicate CounterRun(cs: seq<Counter>, threads: nat) {
    && cs != [] && cs[0] == Counter(0, 0, seq(threads, _ => None))
    && Consecutive(cs)
  }

  ghost predicate Consecutive(cs: seq<Counter>) {
    forall k :: 0 <= k < |cs| - 1 ==> SomeStep(cs[k], cs[k + 1])
  }

  /** What the counter sees along a run of the ring. */
  function Views(g: Ticketed, run: seq<Action>): (cs: seq<Counter>)
    requires Shaped(g) && IsRun(g.ring, run)
    ensures cs != [] && cs[0] == View(g)
    decreases |run|
  {
    if run == [] then [View(g)] else [View(g)] + Views(Annotate(g, run[0]), run[1..])
  }

  /** Whatever thread the step is put down to: without room the counter does not make it. */
  lemma {:induction false} StepExactly(g: Ticketed, a: Action)
    requires TicketInv(g) && Enabled(g.ring, a)
    ensures HasRoom(g.ring, a) <==> SomeStep(View(g), View(Annotate(g, a)))
  {
    RefinesCounter(g, a);
    if !HasRoom(g.ring, a) {
      RoomInTickets(g, a);
      assert View(Annotate(g, a)).H != g.H || View(Annotate(g, a)).T != g.T;
    }
  }

  lemma {:induction false} ConsecutiveCons(c: Counter, cs: seq<Counter>)
    requires cs != []
    ensures Consecutive([c] + cs) <==> SomeStep(c, cs[0]) && Consecutive(cs)
  {
    var all := [c] + cs;
    if Consecutive(all) {
      assert SomeStep(all[0], all[1]);
      forall k | 0 <= k < |cs| - 1
        ensures SomeStep(cs[k], cs[k + 1])
      {
        assert SomeStep(all[k + 1], all[k + 2]);
      }
    }
  }

  lemma {:induction false} RunRefinesCounter(g: Ticketed, run: seq<Action>)
    requires TicketInv(g) && IsRun(g.ring, run)
    ensures Consecutive(Views(g, run)) <==> RoomRun(g.ring, run)
    decreases |run|
  {
    if run != [] {
      var g' := Annotate(g, run[0]);
      StepExactly(g, run[0]);
      ConsecutiveCons(View(g), Views(g', run[1..]));
      if HasRoom(g.ring, run[0]) {
        TicketStep(g, run[0]);
        RunRefinesCounter(g', run[1..]);
      }
    }
  }

  /**
   A run of obtains and returns, of any number of threads, is a run of the ticket counter if and only
   if every compare-exchange that it wins has room.
   */
  lemma {:induction false} PoolRefinesCounter(threads: nat, run: seq<Action>)
    requires IsRun(Init(threads), run)
    ensures CounterRun(Views(Start(threads), run), threads) <==> RoomRun(Init(threads), run)
  {
    TicketStart(threads);
    RunRefinesCounter(Start(threads), run);
    assert View(Start(threads)).taken == seq(threads, _ => None);
  }
}
