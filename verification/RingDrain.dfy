/**
 Draining of the ring, in every interleaving. A potential pays for every step that is not a spin:
 starting an operation and a spurious failure of a weak compare-exchange put in a fixed amount,
 and a retry forced by a real failure is paid for by the reservation that caused it. So retries
 never run away: the number of steps is bounded by the number of operations started.
 */
module RingDrain {
  import opened Sums
  import opened Ring
  import opened RingOwnership
  import opened RingTickets
  import opened RingProgress

  /** Looking for a slot to reserve: the part of an operation that may have to start over. */
  function Searching(pc: Pc): int {
    match pc
    case ObtainLoadHead => 1
    case ObtainLoadTail(_) => 1
    case ObtainCas(_) => 1
    case ReturnLoadTail(_) => 1
    case ReturnLoadHead(_, _) => 1
    case ReturnCas(_, _) => 1
    case _ => 0
  }

  /** The steps left until the reservation or, after it, until the end, if no index moves any more. */
  function Remaining(pc: Pc, head: Index, tail: Index): (r: int)
    ensures 0 <= r <= 5
  {
    match pc
    case Idle => 0
    case ObtainLoadHead => 3
    case ObtainLoadTail(h) => if h == head then 2 else 5
    case ObtainCas(h) => if h == head then 1 else 4
    case LoadClaim(_) => 4
    case LoadTake(_) => 3
    case LoadRelease(_, _) => 2
    case ObtainDone(_) => 1
    case ReturnLoadTail(_) => 3
    case ReturnLoadHead(_, t) => if t == tail then 2 else 5
    case ReturnCas(_, t) => if t == tail then 1 else 4
    case StoreClaim(_, _) => 3
    case StorePut(_, _) => 2
    case StorePublish(_) => 1
    case ReturnDrop(_) => 1
  }

  function SearchList(threads: seq<Pc>): seq<int> {
    seq(|threads|, p requires 0 <= p < |threads| => Searching(threads[p]))
  }

  function RemainingList(threads: seq<Pc>, head: Index, tail: Index): seq<int> {
    seq(|threads|, p requires 0 <= p < |threads| => Remaining(threads[p], head, tail))
  }

  function Round(threads: nat): nat {
    5 * threads + 1
  }

  /** A search outweighs everything that the others can have left after it ends. */
  function Potential(s: State): int {
    Sum(SearchList(s.threads)) * Round(|s.threads|) + Sum(RemainingList(s.threads, s.head, s.tail))
  }

  lemma {:induction false} PotentialAtLeastZero(s: State)
    ensures Potential(s) >= 0
  {
    SumAtLeast(SearchList(s.threads), 0);
    SumAtLeast(RemainingList(s.threads, s.head, s.tail), 0);
    assert Sum(SearchList(s.threads)) * Round(|s.threads|) >= 0;
  }

  /** Thread `p` moves and the indices stand: only its own share of the potential changes. */
  lemma {:induction false} PotentialMove(s: State, s': State, p: nat)
    requires p < |s.threads| == |s'.threads| && s'.threads == s.threads[p := s'.threads[p]]
    requires s'.head == s.head && s'.tail == s.tail
    ensures Potential(s') - Potential(s)
         == (Searching(s'.threads[p]) - Searching(s.threads[p])) * Round(|s.threads|)
          + Remaining(s'.threads[p], s.head, s.tail) - Remaining(s.threads[p], s.head, s.tail)
  {
    assert SearchList(s'.threads) == SearchList(s.threads)[p := Searching(s'.threads[p])];
    SumUpdate(SearchList(s.threads), p, Searching(s'.threads[p]));
    assert RemainingList(s'.threads, s.head, s.tail)
        == RemainingList(s.threads, s.head, s.tail)[p := Remaining(s'.threads[p], s.head, s.tail)];
    SumUpdate(RemainingList(s.threads, s.head, s.tail), p, Remaining(s'.threads[p], s.head, s.tail));
    Distribute(Sum(SearchList(s.threads)), Searching(s'.threads[p]) - Searching(s.threads[p]), Round(|s.threads|));
  }

  lemma {:induction false} Distribute(a: int, d: int, w: int)
    ensures (a + d) * w == a * w + d * w
  {
  }

  /** A search ends by reserving an index: whatever the others have to redo is paid for. */
  lemma {:induction false} PotentialReserve(s: State, s': State, p: nat)
    requires p < |s.threads| == |s'.threads| && s'.threads == s.threads[p := s'.threads[p]]
    requires Searching(s.threads[p]) == 1 && Searching(s'.threads[p]) == 0
    ensures Potential(s') < Potential(s)
  {
    assert SearchList(s'.threads) == SearchList(s.threads)[p := 0];
    SumUpdate(SearchList(s.threads), p, 0);
    SumAtMost(RemainingList(s'.threads, s'.head, s'.tail), 5);
    SumAtLeast(RemainingList(s.threads, s.head, s.tail), 0);
    Distribute(Sum(SearchList(s.threads)), -1, Round(|s.threads|));
  }

  lemma {:induction false} ProgressCosts(s: State, p: nat)
    requires Ownership(s) && Progresses(s, p)
    ensures Potential(StepThread(s, p)) < Potential(s)
  {
    var s' := StepThread(s, p);
    assert HolderOk(s, s.threads[p]);
    assert s'.threads == s.threads[p := s'.threads[p]];
    if Searching(s.threads[p]) == 1 && Searching(s'.threads[p]) == 0 {
      PotentialReserve(s, s', p);
    } else {
      PotentialMove(s, s', p);
    }
  }

  /** The number of steps of a run that are not spins. */
  function Moves(s: State, run: seq<Action>): nat
    requires IsRun(s, run)
    decreases |run|
  {
    if run == [] then 0
    else (if run[0].Step? && !Spins(s, s.threads[run[0].p]) then 1 else 0) + Moves(Apply(s, run[0]), run[1..])
  }

  function Starts(run: seq<Action>): nat {
    if run == [] then 0
    else (if run[0].StartObtain? || run[0].StartReturn? then 1 else 0) + Starts(run[1..])
  }

  function SpuriousFails(run: seq<Action>): nat {
    if run == [] then 0
    else (if run[0].SpuriousFail? then 1 else 0) + SpuriousFails(run[1..])
  }

  /** What starting one operation pays in. */
  function Price(threads: nat): nat {
    Round(threads) + 3
  }

  /** What one action pays in and takes out. */
  lemma {:induction false} StepAccount(s: State, a: Action)
    requires Ownership(s) && Enabled(s, a)
    ensures Potential(Apply(s, a)) + (if a.Step? && !Spins(s, s.threads[a.p]) then 1 else 0)
         <= Potential(s) + (if a.StartObtain? || a.StartReturn? then Price(|s.threads|) else 0)
          + (if a.SpuriousFail? then 2 else 0)
  {
    match a {
      case Step(p) => if !Spins(s, s.threads[p]) { ProgressCosts(s, p); }
      case Provide =>
      case Discard(_) =>
      case _ => PotentialMove(s, Apply(s, a), a.p);
    }
  }

  lemma {:induction false} ThreadCount(s: State, a: Action)
    requires Enabled(s, a)
    ensures |Apply(s, a).threads| == |s.threads|
  {
  }

  lemma {:induction false} MovesAdd(s: State, run: seq<Action>)
    requires IsRun(s, run) && run != []
    ensures var s', rest := Apply(s, run[0]), run[1..];
      && IsRun(s', rest) && Exec(s, run) == Exec(s', rest)
      && Moves(s, run) == Moves(s', rest) + (if run[0].Step? && !Spins(s, s.threads[run[0].p]) then 1 else 0)
  {
  }

  lemma {:induction false} StartsAdd(run: seq<Action>, price: nat)
    requires run != []
    ensures Starts(run) * price
         == Starts(run[1..]) * price + (if run[0].StartObtain? || run[0].StartReturn? then price else 0)
  {
    var n := Starts(run[1..]);
    if run[0].StartObtain? || run[0].StartReturn? {
      assert Starts(run) == n + 1;
      Distribute(n, 1, price);
    } else {
      assert Starts(run) == n;
    }
  }

  /** The account of a whole run. */
  lemma {:induction false} RunAccount(s: State, run: seq<Action>)
    requires Ownership(s) && IsRun(s, run)
    ensures Moves(s, run) + Potential(Exec(s, run))
         <= Potential(s) + Starts(run) * Price(|s.threads|) + 2 * SpuriousFails(run)
    decreases |run|
  {
    if run != [] {
      StepAccount(s, run[0]);
      OwnershipStep(s, run[0]);
      ThreadCount(s, run[0]);
      RunAccount(Apply(s, run[0]), run[1..]);
      MovesAdd(s, run);
      StartsAdd(run, Price(|s.threads|));
    }
  }

  lemma {:induction false} InitPotential(threads: nat)
    ensures Potential(Init(threads)) == 0
  {
    var s := Init(threads);
    SumAtMost(SearchList(s.threads), 0);
    SumAtLeast(SearchList(s.threads), 0);
    SumAtMost(RemainingList(s.threads, 0, 0), 0);
    SumAtLeast(RemainingList(s.threads, 0, 0), 0);
  }

  /**
   No runaway retries: with any number of threads and in every interleaving, the steps that are
   not spins number at most 5 * threads + 4 for each operation started and 2 for each spurious
   failure of a weak compare-exchange.
   */
  lemma {:induction false} StepsPerOperation(threads: nat, run: seq<Action>)
    requires IsRun(Init(threads), run)
    ensures Moves(Init(threads), run) <= Starts(run) * (5 * threads + 4) + 2 * SpuriousFails(run)
  {
    OwnershipInit(threads);
    InitPotential(threads);
    RunAccount(Init(threads), run);
    PotentialAtLeastZero(Exec(Init(threads), run));
  }

  /** A run of steps only, none of them a spin: what is in flight is being finished. */
  predicate OnlyProgress(s: State, run: seq<Action>)
    requires IsRun(s, run)
    decreases |run|
  {
    run == [] || (run[0].Step? && Progresses(s, run[0].p) && OnlyProgress(Apply(s, run[0]), run[1..]))
  }

  lemma {:induction false} OnlyProgressMoves(s: State, run: seq<Action>)
    requires IsRun(s, run) && OnlyProgress(s, run)
    ensures Moves(s, run) == |run| && Starts(run) == 0 && SpuriousFails(run) == 0
    decreases |run|
  {
    if run != [] {
      OnlyProgressMoves(Apply(s, run[0]), run[1..]);
    }
  }

  /**
   Draining, exactly: from any reachable state, a run that only takes steps that are not spins is no
   longer than the potential of the state. If it cannot be continued so, then nothing is in flight
   any more if and only if 0 to SLOTS tickets are between the counters; and that is so if every win
   had room.
   */
  lemma {:induction false} Drains(threads: nat, before: seq<Action>, run: seq<Action>)
    requires IsRun(Init(threads), before) && IsRun(Exec(Init(threads), before), run)
    requires OnlyProgress(Exec(Init(threads), before), run)
    ensures |run| <= Potential(Exec(Init(threads), before))
    ensures IsRun(Init(threads), before + run)
    ensures var g := ExecTickets(Start(threads), before + run);
      (forall q :: !Progresses(g.ring, q)) ==>
        && (Quiescent(g.ring) <==> 0 <= g.T - g.H <= SLOTS)
        && (RoomRun(Init(threads), before + run) ==> Quiescent(g.ring))
  {
    var s := Exec(Init(threads), before);
    OwnershipInit(threads);
    OwnershipRun(Init(threads), before);
    OnlyProgressMoves(s, run);
    RunAccount(s, run);
    PotentialAtLeastZero(Exec(s, run));
    RunConcat(Init(threads), before, run);
    if forall q :: !Progresses(Exec(Init(threads), before + run), q) {
      DeadlockExactly(threads, before + run);
      if RoomRun(Init(threads), before + run) {
        DeadlockFreeReachable(threads, before + run);
      }
    }
  }
}
