/**
 The other way in which a lapped win goes wrong: a thread that loads `tail`, sleeps while the others
 run the ring round once and fill it, and then wins its compare-exchange, puts a buffer into the
 last slot. All slots are available, the indices meet, and the pool looks empty.
 */
module RingOverfull {
  import opened Wrappers
  import opened Ring
  import opened RingReach
  import opened RingTickets
  import opened RingProgress
  import opened RingQueue

  /**
   Thread 0 sleeps before its compare-exchange on `tail`, with index 0. Buffer `j` is in slot `j`
   for each of the slots 1 to k - 1, and buffer `k` in the hands of thread 1's caller.
   */
  function Filling(k: nat): State
    requires 1 <= k <= SLOTS
  {
    State(seq(SLOTS, j => if 1 <= j < k then Some(j) else None),
          seq(SLOTS, j => if 1 <= j < k then Available else Empty),
          1, k % SLOTS, [ReturnCas(0, 0), Idle], {k}, {}, k + 1, false)
  }

  /** Thread 1 returns its buffer, and its caller allocates another one. */
  lemma {:induction false} FillOne(k: nat)
    requires 1 <= k < SLOTS
    ensures Reaches(Filling(k), Filling(k + 1))
  {
    var s := Filling(k);
    ReachReturn(s, 1, k);
    var m := s.(buffers := s.buffers[k := Some(k)], status := s.status[k := Available],
                tail := Succ(k), hands := s.hands - {k});
    ReachesNext(s, m, Provide);
    var s' := Filling(k + 1);
    assert m.hands == {} && Apply(m, Provide).hands == {k + 1};
    assert Apply(m, Provide).buffers == s'.buffers && Apply(m, Provide).status == s'.status;
  }

  lemma {:induction false} FillsUp(k: nat)
    requires 1 <= k <= SLOTS
    ensures Reaches(Filling(k), Filling(SLOTS))
    decreases SLOTS - k
  {
    ReachesHere(Filling(k));
    if k < SLOTS {
      FillOne(k);
      FillsUp(k + 1);
      ReachesTrans(Filling(k), Filling(k + 1), Filling(SLOTS));
    }
  }

  /** Thread 0 loads both indices of the empty ring, finds room, and goes to sleep. */
  function Sleeping(): State {
    Init(2).(threads := [ReturnCas(0, 0), Idle], next := 1)
  }

  lemma {:induction false} FallsAsleep()
    ensures Reaches(Init(2), Sleeping())
  {
    var s := Init(2);
    ReachesHere(s);
    ReachesNext(s, s, Provide);
    var s1 := Apply(s, Provide);
    ReachesNext(s, s1, StartReturn(0, 0));
    var s2 := Apply(s1, StartReturn(0, 0));
    ReachesNext(s, s2, Step(0));
    var s3 := Apply(s2, Step(0));
    ReachesNext(s, s3, Step(0));
    assert Apply(s3, Step(0)) == Sleeping();
  }

  /** Thread 1 returns a buffer and obtains it again: both indices stand at 1. */
  lemma {:induction false} MovesOn()
    ensures Reaches(Sleeping(), Filling(1))
  {
    var s := Sleeping();
    ReachesHere(s);
    ReachesNext(s, s, Provide);
    var s1 := Apply(s, Provide);
    ReachReturn(s1, 1, 1);
    var m := s1.(buffers := s1.buffers[0 := Some(1)], status := s1.status[0 := Available],
                 tail := 1, hands := s1.hands - {1});
    ReachesTrans(s, s1, m);
    ReachObtain(m, 1, 1);
    var s' := m.(buffers := m.buffers[0 := None], status := m.status[0 := Empty],
                 head := 1, hands := m.hands + {1});
    assert s'.buffers == Filling(1).buffers && s'.status == Filling(1).status && s'.hands == {1};
    ReachesTrans(s, m, Filling(1));
  }

  /** Thread 0 wins with an index a full lap old, and stores its buffer. */
  function Overfull(): State {
    var m := Apply(Filling(SLOTS), Step(0));
    Goto(m.(buffers := m.buffers[0 := Some(0)], status := m.status[0 := Available]), 0, Idle)
  }

  lemma {:induction false} ReachesOverfull()
    ensures Reaches(Init(2), Overfull())
  {
    FallsAsleep();
    MovesOn();
    FillsUp(1);
    ReachesTrans(Init(2), Sleeping(), Filling(1));
    ReachesTrans(Init(2), Filling(1), Filling(SLOTS));
    ReachesNext(Init(2), Filling(SLOTS), Step(0));
    var m := Apply(Filling(SLOTS), Step(0));
    ReachStore(m, 0, 0, 0);
    ReachesTrans(Init(2), m, Overfull());
  }

  /** Nothing is in flight, every slot holds a buffer, and the indices are those of an empty pool. */
  lemma {:induction false} OverfullLooksEmpty() returns (run: seq<Action>)
    ensures IsRun(Init(2), run)
    ensures var g := ExecTickets(Start(2), run);
      && Quiescent(g.ring) && !Resting(g.ring)
      && g.ring.head == g.ring.tail
      && (forall i: Index :: g.ring.status[i] == Available && g.ring.buffers[i].Some?)
      && g.T - g.H == SLOTS
    ensures !RoomRun(Init(2), run)
  {
    ReachesOverfull();
    run :| IsRun(Init(2), run) && Exec(Init(2), run) == Overfull();
    var g := ExecTickets(Start(2), run);
    assert g.ring.threads == [Idle, Idle] && g.ring.status[0] == Available && g.ring.head == g.ring.tail;
    QuiescentIsQueue(2, run);
    QuiescentWindow(2, run, 0);
  }
}
