/**
 How a lapped win without room goes wrong: a thread that loads `head`, sleeps while the others run
 the ring round once and leave it empty, and then wins its compare-exchange, deadlocks the pool.
 */
module RingLap {
  import opened Wrappers
  import opened Ring
  import opened RingReach
  import opened RingTickets
  import opened RingProgress

  /** Thread 0 sleeps before its compare-exchange on `head`, with index 0; the ring is empty at `i`. */
  function Asleep(i: Index): State {
    State(seq(SLOTS, _ => None), seq(SLOTS, _ => Empty), i, i, [ObtainCas(0), Idle], {0}, {}, 1, false)
  }

  /** Thread 1 returns the buffer and obtains it again: both indices advance by one. */
  lemma {:induction false} Cycle(i: Index)
    ensures Reaches(Asleep(i), Asleep(Succ(i)))
  {
    var s := Asleep(i);
    ReachReturn(s, 1, 0);
    var m := s.(buffers := s.buffers[i := Some(0)], status := s.status[i := Available],
                tail := Succ(i), hands := s.hands - {0});
    ReachObtain(m, 1, 0);
    var s' := m.(buffers := m.buffers[i := None], status := m.status[i := Empty],
                 head := Succ(i), hands := m.hands + {0});
    assert s'.buffers == s.buffers && s'.status == s.status && s'.hands == {0};
    ReachesTrans(s, m, s');
  }

  lemma {:induction false} Cycles(i: Index, j: Index)
    requires i <= j
    ensures Reaches(Asleep(i), Asleep(j))
    decreases j - i
  {
    ReachesHere(Asleep(i));
    if i < j {
      Cycle(i);
      Cycles(i + 1, j);
      ReachesTrans(Asleep(i), Asleep(i + 1), Asleep(j));
    }
  }

  /** One buffer in the pool, and all threads idle. */
  function Stocked(): State {
    Init(2).(buffers := Init(2).buffers[0 := Some(0)], status := Init(2).status[0 := Available], tail := 1, next := 1)
  }

  lemma {:induction false} StocksUp()
    ensures Reaches(Init(2), Stocked())
  {
    var s := Init(2);
    ReachesHere(s);
    ReachesNext(s, s, Provide);
    var s1 := Apply(s, Provide);
    ReachReturn(s1, 1, 0);
    var s2 := s1.(buffers := s1.buffers[0 := Some(0)], status := s1.status[0 := Available],
                  tail := 1, hands := s1.hands - {0});
    ReachesTrans(s, s1, s2);
    assert s2.hands == {};
  }

  /** Thread 0 loads both indices, finds a buffer, and goes to sleep. */
  lemma {:induction false} LoadsAndSleeps()
    ensures Reaches(Stocked(), Goto(Stocked(), 0, ObtainCas(0)))
  {
    var s := Stocked();
    ReachesHere(s);
    ReachesNext(s, s, StartObtain(0));
    var s1 := Apply(s, StartObtain(0));
    ReachesNext(s, s1, Step(0));
    var s2 := Apply(s1, Step(0));
    ReachesNext(s, s2, Step(0));
    assert Apply(s2, Step(0)) == Goto(s, 0, ObtainCas(0));
  }

  /** Thread 0 goes to sleep with the index of a buffer that thread 1 then takes. */
  lemma {:induction false} FallsAsleep()
    ensures Reaches(Init(2), Asleep(1))
  {
    StocksUp();
    LoadsAndSleeps();
    var s := Goto(Stocked(), 0, ObtainCas(0));
    ReachObtain(s, 1, 0);
    var s' := s.(buffers := s.buffers[0 := None], status := s.status[0 := Empty],
                 head := 1, hands := s.hands + {0});
    assert s'.threads == [ObtainCas(0), Idle];
    assert s'.buffers == Asleep(1).buffers && s'.status == Asleep(1).status && s'.hands == {0};
    ReachesTrans(Init(2), Stocked(), s);
    ReachesTrans(Init(2), s, Asleep(1));
  }

  /** An operation is in flight, and no thread has a step that is not a spin. */
  ghost predicate Deadlocked(s: State) {
    !Quiescent(s) && forall q :: !Progresses(s, q)
  }

  /** Thread 0 wins its compare-exchange with an index a full lap old. */
  function Stuck(): State {
    Apply(Asleep(0), Step(0))
  }

  lemma {:induction false} ReachesStuck()
    ensures Reaches(Init(2), Stuck())
  {
    FallsAsleep();
    Cycles(1, SLOTS - 1);
    Cycle(SLOTS - 1);
    ReachesTrans(Init(2), Asleep(1), Asleep(SLOTS - 1));
    ReachesTrans(Init(2), Asleep(SLOTS - 1), Asleep(0));
    ReachesNext(Init(2), Asleep(0), Step(0));
  }

  /** It waits for a buffer in a slot that nobody is going to fill. */
  lemma {:induction false} StuckIsDeadlocked()
    ensures Deadlocked(Stuck())
  {
    var s := Stuck();
    assert s.threads == [LoadClaim(0), Idle] && s.status[0] == Empty;
    assert s.threads[0] != Idle;
  }

  /** One lap is enough to deadlock the pool: two threads, 1024 reservations between load and win. */
  lemma {:induction false} LapDeadlocks() returns (run: seq<Action>)
    ensures IsRun(Init(2), run) && Deadlocked(Exec(Init(2), run))
    ensures !RoomRun(Init(2), run) && !NoLapRun(Start(2), run)
  {
    ReachesStuck();
    StuckIsDeadlocked();
    run :| IsRun(Init(2), run) && Exec(Init(2), run) == Stuck();
    if RoomRun(Init(2), run) {
      DeadlockFreeReachable(2, run);
    }
    if NoLapRun(Start(2), run) {
      TicketStart(2);
      NoLapHasRoom(Start(2), run);
    }
  }
}
