/**
 A full pool can miss and an empty pool can drop. The two indices are loaded one after the other, so
 an operation may compare an old value of one with a new value of the other. No lap of a winning
 compare-exchange is needed for that, and no win without room.
 */
module RingMisfires {
  import opened Wrappers
  import opened Ring
  import opened RingTickets
  import opened RingReach
  import opened RingQueue

  /** Buffer `j` is in slot `j` for j < k, buffer `k` is in the hands of thread 1's caller; nobody is at work. */
  function Stocked(k: nat): State
    requires k < SLOTS
  {
    State(seq(SLOTS, j => if j < k then Some(j) else None), seq(SLOTS, j => if j < k then Available else Empty),
          0, k, [Idle, Idle], {k}, {}, k + 1, false)
  }

  /** Thread 1 returns its buffer, and its caller allocates another one. */
  lemma {:induction false} StockOne(P: Ticketed -> bool, g: Ticketed, k: nat) returns (g': Ticketed)
    requires Closed(P) && P(g) && Shaped(g) && k < SLOTS - 1 && g.ring == Stocked(k)
    ensures P(g') && Shaped(g') && g'.ring == Stocked(k + 1)
  {
    var m := LeadReturn(P, g, 1, k);
    Moves(P, m, Provide);
    g' := Annotate(m, Provide);
    assert m.ring.hands == {} && g'.ring.hands == {k + 1};
    assert g'.ring.buffers == Stocked(k + 1).buffers && g'.ring.status == Stocked(k + 1).status;
  }

  lemma {:induction false} StocksUp(P: Ticketed -> bool, k: nat) returns (g: Ticketed)
    requires Closed(P) && P(Start(2)) && k < SLOTS
    ensures P(g) && Shaped(g) && g.ring == Stocked(k)
    decreases k
  {
    if k == 0 {
        Moves(P, Start(2), Provide);
      g := Annotate(Start(2), Provide);
      assert g.ring.buffers == Stocked(0).buffers && g.ring.status == Stocked(0).status;
    } else {
      var m := StocksUp(P, k - 1);
        g := StockOne(P, m, k - 1);
      }
  }

  /** Thread 1 obtains the oldest buffer and returns it. */
  lemma {:induction false} Cycles(P: Ticketed -> bool, g: Ticketed, b: Buffer) returns (g': Ticketed)
    requires Closed(P) && P(g) && Shaped(g) && Enabled(g.ring, StartObtain(1)) && g.ring.head != g.ring.tail
    requires g.ring.status[g.ring.head] == Available && g.ring.buffers[g.ring.head] == Some(b)
    requires g.ring.status[g.ring.tail] == Empty && g.ring.buffers[g.ring.tail] == None
    requires Succ(g.ring.tail) != Succ(g.ring.head)
    ensures P(g') && Shaped(g') && g'.ring == Stored(Taken(g.ring, b), b)
  {
    var m := LeadObtain(P, g, 1, b);
    g' := LeadReturn(P, m, 1, b);
  }

  /** The run that leads to `g`; it has room at every win. */
  lemma {:induction false} RunTo(g: Ticketed) returns (run: seq<Action>)
    requires Led(2, g)
    ensures IsRun(Init(2), run) && Exec(Init(2), run) == g.ring
    ensures NoLapRun(Start(2), run) && RoomRun(Init(2), run)
  {
    run :| NoLapTo(Start(2), run, g);
    TicketStart(2);
    NoLapHasRoom(Start(2), run);
  }

  /** All of the slots 1 to 1023 are available: the pool is full. */
  lemma {:induction false} FullAtRest(s: State)
    requires s.head == 1 && s.tail == 0
    requires s.status[0] == Empty && s.buffers[0] == None
    requires forall i: Index :: i >= 1 ==> s.status[i] == Available && s.buffers[i].Some?
    ensures Resting(s) && |QueueOf(s)| == SLOTS - 1
  {
  }

  /** Buffer 0 goes from slot 0 to slot 1023, while thread 0 has `head` as 0. */
  lemma {:induction false} CycledFull(s: State, s': State)
    requires s == Goto(Stocked(SLOTS - 1), 0, ObtainLoadTail(0)) && s' == Stored(Taken(s, 0), 0)
    ensures s'.head == 1 && s'.tail == 0 && s'.threads == [ObtainLoadTail(0), Idle] && !s'.aborted
    ensures s'.status[0] == Empty && s'.buffers[0] == None
    ensures forall i: Index :: i >= 1 ==> s'.status[i] == Available && s'.buffers[i].Some?
  {
  }

  lemma {:induction false} FullAndMissing(P: Ticketed -> bool) returns (g: Ticketed)
    requires Closed(P) && P(Start(2))
    ensures P(g)
    ensures Misses(g.ring, 0) && g.ring.threads == [ObtainLoadTail(0), Idle]
    ensures Resting(g.ring) && |QueueOf(g.ring)| == SLOTS - 1
  {
    var g0 := StocksUp(P, SLOTS - 1);
    var g1 := LeadLoadHead(P, g0, 0);
    g := Cycles(P, g1, 0);
    CycledFull(g1.ring, g.ring);
    FullAtRest(g.ring);
  }

  /**
   A full pool can miss: two threads, no lapped win, every win with room. Thread 0 loads `head`, then
   thread 1 obtains a buffer and returns it, and thread 0 finds `tail` at the index it holds.
   */
  lemma {:induction false} FullPoolMisses() returns (run: seq<Action>)
    ensures IsRun(Init(2), run) && NoLapRun(Start(2), run) && RoomRun(Init(2), run)
    ensures var s := Exec(Init(2), run);
      Misses(s, 0) && |s.threads| == 2 && s.threads[1] == Idle && Resting(s) && |QueueOf(s)| == 1023
  {
    LedClosed(2);
    var g := FullAndMissing((g: Ticketed) => Led(2, g));
    run := RunTo(g);
  }

  /** Thread 1's caller allocates buffer 1; thread 1 returns it and obtains it again. */
  lemma {:induction false} PassesThrough(P: Ticketed -> bool, g: Ticketed) returns (g': Ticketed)
    requires Closed(P) && P(g) && Shaped(g) && g.ring == Init(2).(threads := [ReturnLoadHead(0, 0), Idle], next := 1)
    ensures P(g') && Shaped(g')
    ensures g'.ring == Init(2).(threads := [ReturnLoadHead(0, 0), Idle], head := 1, tail := 1, hands := {1}, next := 2)
  {
    Moves(P, g, Provide);
    var g1 := Annotate(g, Provide);
    var g2 := LeadReturn(P, g1, 1, 1);
    g' := LeadObtain(P, g2, 1, 1);
    assert g'.ring.buffers == Init(2).buffers && g'.ring.status == Init(2).status && g'.ring.hands == {1};
  }

  /** Thread 0 has taken over buffer 0 and loaded `tail`; the pool is as at the start. */
  lemma {:induction false} AsAtStart(s: State)
    requires s == Goto(Stocked(0).(hands := Stocked(0).hands - {0}), 0, ReturnLoadHead(0, 0))
    ensures s == Init(2).(threads := [ReturnLoadHead(0, 0), Idle], next := 1)
  {
    assert s.buffers == Init(2).buffers && s.status == Init(2).status && s.hands == {};
  }

  lemma {:induction false} EmptyAtRest(s: State)
    requires s.head == s.tail
    requires forall i: Index :: s.status[i] == Empty && s.buffers[i] == None
    ensures Resting(s) && QueueOf(s) == []
  {
  }

  lemma {:induction false} EmptyAndDropping(P: Ticketed -> bool) returns (g: Ticketed)
    requires Closed(P) && P(Start(2))
    ensures P(g)
    ensures Drops(g.ring, 0) && g.ring.threads == [ReturnLoadHead(0, 0), Idle]
    ensures Resting(g.ring) && QueueOf(g.ring) == []
  {
    var g0 := StocksUp(P, 0);
    var g1 := LeadLoadTail(P, g0, 0, 0);
    AsAtStart(g1.ring);
    g := PassesThrough(P, g1);
    EmptyAtRest(g.ring);
  }

  /**
   An empty pool can drop: thread 0 loads `tail`, then thread 1 returns a buffer and obtains it again,
   and thread 0 finds `head` one ahead of the index it holds. Its buffer is freed.
   */
  lemma {:induction false} EmptyPoolDrops() returns (run: seq<Action>)
    ensures IsRun(Init(2), run) && NoLapRun(Start(2), run) && RoomRun(Init(2), run)
    ensures var s := Exec(Init(2), run);
      Drops(s, 0) && |s.threads| == 2 && s.threads[1] == Idle && Resting(s) && QueueOf(s) == []
  {
    LedClosed(2);
    var g := EmptyAndDropping((g: Ticketed) => Led(2, g));
    run := RunTo(g);
  }
}
