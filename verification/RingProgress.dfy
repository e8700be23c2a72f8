/**
 Progress of the ring. For each slot,

   pending storers - pending loaders + (1 if the slot is being stored or is available)

 is the number of store tickets given out so far that share the slot's index, minus the number of
 such load tickets. Two storers a lap apart may compete for one slot, so tickets do not map to
 slots one by one; this count is what survives, in every interleaving and however old the winning
 indices are. From it follows exactly when the pool can get stuck.
 */
module RingProgress {
  import opened Wrappers
  import opened Sums
  import opened Ring
  import opened RingOwnership
  import opened RingTickets

  /** How many of the tickets 0 to n - 1 have index `i`: one for each whole lap, and the lap begun. */
  function Upto(n: nat, i: Index): nat {
    n / SLOTS + if i < n % SLOTS then 1 else 0
  }

  lemma {:induction false} UptoNext(n: nat, i: Index)
    ensures Upto(n + 1, i) == Upto(n, i) + if n % SLOTS == i then 1 else 0
  {
    if n % SLOTS == SLOTS - 1 {
      assert (n + 1) / SLOTS == n / SLOTS + 1 && (n + 1) % SLOTS == 0;
    } else {
      assert (n + 1) / SLOTS == n / SLOTS && (n + 1) % SLOTS == n % SLOTS + 1;
    }
  }

  /** The tickets below `n` that have index `i`. */
  ghost function TicketsOf(n: nat, i: Index): set<nat> {
    set k: nat | k < n && k % SLOTS == i
  }

  lemma {:induction false} TicketsNext(n: nat, i: Index)
    ensures TicketsOf(n + 1, i) == TicketsOf(n, i) + if n % SLOTS == i then {n} else {}
  {
  }

  /** `Upto` counts them. */
  lemma {:induction false} UptoMeaning(n: nat, i: Index)
    ensures Upto(n, i) == |TicketsOf(n, i)|
    decreases n
  {
    if n == 0 {
      assert TicketsOf(0, i) == {};
    } else {
      var before, last := TicketsOf(n - 1, i), n - 1;
      UptoMeaning(last, i);
      UptoNext(last, i);
      TicketsNext(last, i);
      assert last !in before;
    }
  }

  /** Store tickets of slot `i` given out so far, less its load tickets. */
  function Net(H: nat, T: nat, i: Index): int {
    Upto(T, i) - Upto(H, i)
  }

  lemma {:induction false} UptoMonotone(m: nat, n: nat, i: Index)
    requires m <= n
    ensures Upto(m, i) <= Upto(n, i)
    decreases n - m
  {
    if m < n {
      UptoNext(m, i);
      UptoMonotone(m + 1, n, i);
    }
  }

  lemma {:induction false} UptoLap(n: nat, i: Index)
    ensures Upto(n + SLOTS, i) == Upto(n, i) + 1
  {
    assert (n + SLOTS) / SLOTS == n / SLOTS + 1 && (n + SLOTS) % SLOTS == n % SLOTS;
  }

  /** A window of at most a lap has at most one ticket of each slot. */
  lemma {:induction false} NetOfWindow(H: nat, T: nat, i: Index)
    requires 0 <= T - H <= SLOTS
    ensures 0 <= Net(H, T, i) <= 1
  {
    UptoMonotone(H, T, i);
    UptoMonotone(T, H + SLOTS, i);
    UptoLap(H, i);
  }

  /** A wider window has a slot with two tickets, and a reversed one a slot with a ticket missing. */
  lemma {:induction false} NetOutside(H: nat, T: nat)
    ensures T - H > SLOTS ==> Net(H, T, H % SLOTS) >= 2
    ensures T < H ==> Net(H, T, T % SLOTS) < 0
  {
    if T - H > SLOTS {
      UptoNext(H, H % SLOTS);
      UptoLap(H + 1, H % SLOTS);
      UptoMonotone(H + 1 + SLOTS, T, H % SLOTS);
    }
    if T < H {
      UptoNext(T, T % SLOTS);
      UptoMonotone(T + 1, H, T % SLOTS);
    }
  }

  /** In a window of at most a lap the count of a slot says whether one of the tickets is the slot's. */
  lemma {:induction false} NetMeaning(H: nat, T: nat, i: Index)
    requires 0 <= T - H <= SLOTS
    ensures Net(H, T, i) == 1 <==> exists k: nat :: H <= k < T && k % SLOTS == i
    decreases T - H
  {
    if H < T {
      UptoNext(T - 1, i);
      NetMeaning(H, T - 1, i);
      NetOfWindow(H, T, i);
      NetOfWindow(H, T - 1, i);
    }
  }

  /** A pending storer of slot `i` counts one, a pending loader minus one. */
  function Weight(pc: Pc, i: Index): int {
    match pc
    case StoreClaim(_, t) => if t == i then 1 else 0
    case LoadClaim(h) => if h == i then -1 else 0
    case _ => 0
  }

  function Weights(threads: seq<Pc>, i: Index): seq<int> {
    seq(|threads|, p requires 0 <= p < |threads| => Weight(threads[p], i))
  }

  function Filled(st: Status): int {
    if st == Storing || st == Available then 1 else 0
  }

  function Credit(s: State, i: Index): int {
    Sum(Weights(s.threads, i)) + Filled(s.status[i])
  }

  ghost predicate Balanced(g: Ticketed) {
    forall i: Index :: Credit(g.ring, i) == Net(g.H, g.T, i)
  }

  lemma {:induction false} WeightsUpdate(threads: seq<Pc>, p: nat, pc: Pc, i: Index)
    requires p < |threads|
    ensures Sum(Weights(threads[p := pc], i)) == Sum(Weights(threads, i)) - Weight(threads[p], i) + Weight(pc, i)
  {
    assert Weights(threads[p := pc], i) == Weights(threads, i)[p := Weight(pc, i)];
    SumUpdate(Weights(threads, i), p, Weight(pc, i));
  }

  lemma {:induction false} BalancedStart(threads: nat)
    ensures Balanced(Start(threads))
  {
    forall i: Index
      ensures Credit(Start(threads).ring, i) == Net(0, 0, i)
    {
      SumAtMost(Weights(Init(threads).threads, i), 0);
      SumAtLeast(Weights(Init(threads).threads, i), 0);
    }
  }

  /** The credit of a slot after thread `p` moved to `pc` and the slot's status may have changed. */
  lemma {:induction false} CreditMove(s: State, s': State, p: nat, i: Index)
    requires p < |s.threads| == |s'.threads| && s'.threads == s.threads[p := s'.threads[p]]
    ensures Credit(s', i) - Credit(s, i)
         == Weight(s'.threads[p], i) - Weight(s.threads[p], i) + Filled(s'.status[i]) - Filled(s.status[i])
  {
    WeightsUpdate(s.threads, p, s'.threads[p], i);
  }

  /** A step other than a won reservation leaves every slot's credit alone. */
  lemma {:induction false} CreditKept(s: State, p: nat, i: Index)
    requires Ownership(s) && Enabled(s, Step(p)) && !WinsHead(s, Step(p)) && !WinsTail(s, Step(p))
    ensures Credit(StepThread(s, p), i) == Credit(s, i)
  {
    var s' := StepThread(s, p);
    assert HolderOk(s, s.threads[p]);
    CreditMove(s, s', p, i);
    match s.threads[p] {
      case LoadClaim(h) =>
        assert Weight(s'.threads[p], i) + Filled(s'.status[i]) == Weight(s.threads[p], i) + Filled(s.status[i]);
      case StoreClaim(_, t) =>
        assert Weight(s'.threads[p], i) + Filled(s'.status[i]) == Weight(s.threads[p], i) + Filled(s.status[i]);
      case _ =>
    }
  }

  /** One thread's step changes a slot's credit exactly as it changes the count of tickets. */
  lemma {:induction false} CreditStep(g: Ticketed, p: nat, i: Index)
    requires IndexInv(g) && Ownership(g.ring) && Enabled(g.ring, Step(p))
    ensures var g' := Annotate(g, Step(p));
      Credit(g'.ring, i) - Credit(g.ring, i) == Net(g'.H, g'.T, i) - Net(g.H, g.T, i)
  {
    if WinsHead(g.ring, Step(p)) {
      CreditMove(g.ring, StepThread(g.ring, p), p, i);
      UptoNext(g.H, i);
    } else if WinsTail(g.ring, Step(p)) {
      CreditMove(g.ring, StepThread(g.ring, p), p, i);
      UptoNext(g.T, i);
    } else {
      CreditKept(g.ring, p, i);
    }
  }

  lemma {:induction false} BalancedStep(g: Ticketed, a: Action)
    requires IndexInv(g) && Ownership(g.ring) && Balanced(g) && Enabled(g.ring, a)
    ensures Balanced(Annotate(g, a))
  {
    var g' := Annotate(g, a);
    forall i: Index
      ensures Credit(g'.ring, i) == Net(g'.H, g'.T, i)
    {
      assert Credit(g.ring, i) == Net(g.H, g.T, i);
      match a {
        case Step(p) => CreditStep(g, p, i);
        case Provide =>
        case Discard(_) =>
        case _ => WeightsUpdate(g.ring.threads, a.p, g'.ring.threads[a.p], i);
      }
    }
  }

  /** What holds in every interleaving. */
  ghost predicate RingInv(g: Ticketed) {
    IndexInv(g) && Ownership(g.ring) && Balanced(g)
  }

  lemma {:induction false} RingInvStart(threads: nat)
    ensures RingInv(Start(threads))
  {
    OwnershipInit(threads);
    BalancedStart(threads);
  }

  lemma {:induction false} RingInvRun(g: Ticketed, run: seq<Action>)
    requires RingInv(g) && IsRun(g.ring, run)
    ensures RingInv(ExecTickets(g, run))
    decreases |run|
  {
    if run != [] {
      IndexStep(g, run[0]);
      OwnershipStep(g.ring, run[0]);
      BalancedStep(g, run[0]);
      RingInvRun(Annotate(g, run[0]), run[1..]);
    }
  }

  /**
   The account of each slot, in every interleaving from the start: pending storers minus pending
   loaders plus (stored or available) is the number of its store tickets minus that of its load
   tickets.
   */
  lemma {:induction false} CreditIsNet(threads: nat, run: seq<Action>, i: Index)
    requires IsRun(Init(threads), run)
    ensures var g := ExecTickets(Start(threads), run);
      Credit(g.ring, i) == |TicketsOf(g.T, i)| - |TicketsOf(g.H, i)|
  {
    RingInvStart(threads);
    RingInvRun(Start(threads), run);
    var g := ExecTickets(Start(threads), run);
    UptoMeaning(g.T, i);
    UptoMeaning(g.H, i);
    assert Credit(g.ring, i) == Net(g.H, g.T, i);
  }

  /** A loader waiting for an empty slot has a storer that can claim the slot, if loads are not ahead of stores. */
  lemma {:induction false} LoaderHasStorer(g: Ticketed, p: nat) returns (q: nat)
    requires RingInv(g) && p < |g.ring.threads| && g.ring.threads[p].LoadClaim?
    requires g.ring.status[g.ring.threads[p].h] == Empty && g.H <= g.T
    ensures Progresses(g.ring, q) && g.ring.threads[q].StoreClaim?
  {
    var i := g.ring.threads[p].h;
    var ws := Weights(g.ring.threads, i);
    assert Credit(g.ring, i) == Net(g.H, g.T, i);
    UptoMonotone(g.H, g.T, i);
    if q' :| 0 <= q' < |ws| && ws[q'] > 0 {
      q := q';
    } else {
      SumNegative(ws, p);
      assert false;
    }
  }

  /** A storer waiting for an available slot has a loader that can claim it, if stores are not over a lap ahead. */
  lemma {:induction false} StorerHasLoader(g: Ticketed, p: nat) returns (q: nat)
    requires RingInv(g) && p < |g.ring.threads| && g.ring.threads[p].StoreClaim?
    requires g.ring.status[g.ring.threads[p].t] == Available && 0 <= g.T - g.H <= SLOTS
    ensures Progresses(g.ring, q) && g.ring.threads[q].LoadClaim?
  {
    var i := g.ring.threads[p].t;
    var ws := Weights(g.ring.threads, i);
    assert Credit(g.ring, i) == Net(g.H, g.T, i);
    NetOfWindow(g.H, g.T, i);
    if q' :| 0 <= q' < |ws| && ws[q'] < 0 {
      q := q';
    } else {
      SumPositive(ws, p);
      assert false;
    }
  }

  /**
   Deadlock freedom: with at most a lap of tickets between the counters, whenever an operation is
   in flight some thread has an enabled step that is not a spin.
   */
  lemma {:induction false} DeadlockFree(g: Ticketed, p: nat) returns (q: nat)
    requires RingInv(g) && 0 <= g.T - g.H <= SLOTS && p < |g.ring.threads| && g.ring.threads[p] != Idle
    ensures Progresses(g.ring, q)
  {
    var s := g.ring;
    var pc := s.threads[p];
    q := p;
    if Spins(s, pc) {
      var i := if pc.LoadClaim? then pc.h else pc.t;
      if InUse(s, i) {
        assert HeldBySomeone(s, i);
        q :| 0 <= q < |s.threads| && OwnedSlot(s.threads[q]) == Some(i);
      } else if pc.LoadClaim? {
        q := LoaderHasStorer(g, p);
      } else {
        q := StorerHasLoader(g, p);
      }
    }
  }

  /** With no operation in flight, a slot is available or empty according to its count of tickets. */
  lemma {:induction false} QuiescentSlot(g: Ticketed, i: Index)
    requires RingInv(g) && Quiescent(g.ring)
    ensures Net(g.H, g.T, i) == if g.ring.status[i] == Available then 1 else 0
    ensures g.ring.status[i] == Available || g.ring.status[i] == Empty
  {
    assert Credit(g.ring, i) == Net(g.H, g.T, i);
    SumAtMost(Weights(g.ring.threads, i), 0);
    SumAtLeast(Weights(g.ring.threads, i), 0);
    assert !HeldBySomeone(g.ring, i);
    assert !InUse(g.ring, i);
  }

  /** So at most a lap of tickets is then between the counters. */
  lemma {:induction false} QuiescentBound(g: Ticketed)
    requires RingInv(g) && Quiescent(g.ring)
    ensures 0 <= g.T - g.H <= SLOTS
  {
    NetOutside(g.H, g.T);
    QuiescentSlot(g, g.H % SLOTS);
    QuiescentSlot(g, g.T % SLOTS);
  }

  /**
   When the pool is stuck, exactly: after any run of any number of threads, if no thread has a step
   that is not a spin, then either nothing is in flight or the counters are out of step, that is,
   there are more loads than stores or more than a lap of stores ahead; and never both.
   */
  lemma {:induction false} DeadlockExactly(threads: nat, run: seq<Action>)
    requires IsRun(Init(threads), run)
    requires forall q :: !Progresses(Exec(Init(threads), run), q)
    ensures var g := ExecTickets(Start(threads), run);
      Quiescent(g.ring) <==> 0 <= g.T - g.H <= 1024
  {
    RingInvStart(threads);
    RingInvRun(Start(threads), run);
    var g := ExecTickets(Start(threads), run);
    if Quiescent(g.ring) {
      QuiescentBound(g);
    } else if 0 <= g.T - g.H <= SLOTS {
      var p :| 0 <= p < |g.ring.threads| && g.ring.threads[p] != Idle;
      var q := DeadlockFree(g, p);
      assert false;
    }
  }

  /** As long as every win has room, there is no deadlock. */
  lemma {:induction false} DeadlockFreeReachable(threads: nat, run: seq<Action>)
    requires IsRun(Init(threads), run) && RoomRun(Init(threads), run)
    ensures var s := Exec(Init(threads), run);
      Quiescent(s) || exists q :: Progresses(s, q)
  {
    TicketStart(threads);
    TicketRun(Start(threads), run);
    if forall q :: !Progresses(Exec(Init(threads), run), q) {
      DeadlockExactly(threads, run);
    }
  }

  /**
   In every interleaving: with no operation in flight, at most a lap of tickets is between the
   counters, and the available slots are exactly those of the window [H, T).
   */
  lemma {:induction false} QuiescentWindow(threads: nat, run: seq<Action>, i: Index)
    requires IsRun(Init(threads), run) && Quiescent(Exec(Init(threads), run))
    ensures var g := ExecTickets(Start(threads), run);
      && 0 <= g.T - g.H <= SLOTS
      && g.ring.head == g.H % SLOTS && g.ring.tail == g.T % SLOTS
      && g.ring.status[i] == (if exists k: nat :: g.H <= k < g.T && k % SLOTS == i then Available else Empty)
  {
    RingInvStart(threads);
    RingInvRun(Start(threads), run);
    var g := ExecTickets(Start(threads), run);
    QuiescentBound(g);
    QuiescentSlot(g, i);
    NetMeaning(g.H, g.T, i);
  }
}
