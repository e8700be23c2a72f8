/**
 The ring as an atomic bag of buffers. A buffer enters the bag in the step that makes its slot
 available and leaves it in the step that claims the slot; every other access to the shared
 memory is invisible. Which buffer an obtain gets is not fixed by the order of the returns: with
 threads running against each other the pool is a bag, not a queue.
 */
module RingBag {
  import opened Wrappers
  import opened Ring
  import opened RingOwnership
  import opened RingConservation

  /** The bag, what each thread carries, and the books of the callers. */
  datatype Bag = Bag(pool: set<Buffer>, carried: seq<Option<Buffer>>, hands: set<Buffer>, freed: set<Buffer>, next: nat)

  datatype Event =
    | Quiet
    | Insert(p: nat, b: Buffer)      // a return puts its buffer into the pool
    | Remove(p: nat, b: Buffer)      // an obtain takes a buffer out of the pool
    | Deliver(p: nat, b: Buffer)     // an obtain hands its buffer to the caller
    | Allocate(p: nat)               // an obtain missed: the caller gets a fresh buffer
    | Accept(p: nat, b: Buffer)      // a return takes over its buffer from the caller
    | Drop(p: nat, b: Buffer)        // a return found the pool full: its buffer is freed
    | CallerAllocates                // a caller allocates a buffer itself
    | CallerFrees(b: Buffer)         // a caller frees a buffer itself

  /** The atomic operations of the bag. */
  predicate BagStep(x: Bag, e: Event, x': Bag) {
    match e
    case Quiet => x' == x
    case Insert(p, b) =>
      && p < |x.carried| && x.carried[p] == Some(b) && b !in x.pool
      && x' == x.(pool := x.pool + {b}, carried := x.carried[p := None])
    case Remove(p, b) =>
      && p < |x.carried| && x.carried[p] == None && b in x.pool
      && x' == x.(pool := x.pool - {b}, carried := x.carried[p := Some(b)])
    case Deliver(p, b) =>
      && p < |x.carried| && x.carried[p] == Some(b) && b !in x.hands
      && x' == x.(hands := x.hands + {b}, carried := x.carried[p := None])
    case Allocate(p) =>
      && p < |x.carried| && x.carried[p] == None && x.next !in x.hands
      && x' == x.(hands := x.hands + {x.next}, next := x.next + 1)
    case Accept(p, b) =>
      && p < |x.carried| && x.carried[p] == None && b in x.hands
      && x' == x.(hands := x.hands - {b}, carried := x.carried[p := Some(b)])
    case Drop(p, b) =>
      && p < |x.carried| && x.carried[p] == Some(b)
      && x' == x.(freed := x.freed + {b}, carried := x.carried[p := None])
    case CallerAllocates => x' == x.(hands := x.hands + {x.next}, next := x.next + 1)
    case CallerFrees(b) => b in x.hands && x' == x.(hands := x.hands - {b}, freed := x.freed + {b})
  }

  /** A thread that holds a slot carries the buffer in it: out of the pool, or not yet in it. */
  function Holds(s: State, pc: Pc): Option<Buffer> {
    match pc
    case LoadTake(h) => s.buffers[h]
    case StorePublish(t) => s.buffers[t]
    case _ => Carried(pc)
  }

  ghost predicate Pooled(s: State, b: Buffer) {
    exists i: Index :: s.status[i] == Available && s.buffers[i] == Some(b)
  }

  ghost function BagOf(s: State): Bag {
    Bag(set b: Buffer | b < s.next && Pooled(s, b),
        seq(|s.threads|, p requires 0 <= p < |s.threads| => Holds(s, s.threads[p])),
        s.hands, s.freed, s.next)
  }

  /** The bag operation that an action performs. */
  function EventOf(s: State, a: Action): Event {
    match a
    case StartReturn(p, b) => Accept(p, b)
    case Provide => CallerAllocates
    case Discard(b) => CallerFrees(b)
    case Step(p) =>
      if p >= |s.threads| then Quiet
      else
        (match s.threads[p]
         case LoadClaim(h) =>
           if s.status[h] == Available && s.buffers[h].Some? then Remove(p, s.buffers[h].value) else Quiet
         case ObtainDone(Some(b)) => Deliver(p, b)
         case ObtainDone(None) => Allocate(p)
         case StorePublish(t) => if s.buffers[t].Some? then Insert(p, s.buffers[t].value) else Quiet
         case ReturnDrop(b) => Drop(p, b)
         case _ => Quiet)
    case _ => Quiet
  }

  /** Only thread `p`'s share changes, if the slots that the others hold are left alone. */
  lemma {:induction false} CarriedFrame(s: State, s': State, p: nat)
    requires Ownership(s) && p < |s.threads| == |s'.threads| && s'.threads == s.threads[p := s'.threads[p]]
    requires forall i: Index :: InUse(s, i) && OwnedSlot(s.threads[p]) != Some(i) ==> s'.buffers[i] == s.buffers[i]
    ensures BagOf(s').carried == BagOf(s).carried[p := Holds(s', s'.threads[p])]
  {
    forall q | 0 <= q < |s.threads| && q != p
      ensures Holds(s', s'.threads[q]) == Holds(s, s.threads[q])
    {
      assert HolderOk(s, s.threads[q]);
      match s.threads[q] {
        case LoadTake(h) => assert InUse(s, h);
        case StorePublish(t) => assert InUse(s, t);
        case _ =>
      }
    }
  }

  /** The pool is unchanged when the available slots and their buffers are. */
  lemma {:induction false} PoolSame(s: State, s': State)
    requires Conserved(s) && s.next <= s'.next
    requires forall i: Index :: s'.status[i] == Available <==> s.status[i] == Available
    requires forall i: Index :: s.status[i] == Available ==> s'.buffers[i] == s.buffers[i]
    ensures BagOf(s').pool == BagOf(s).pool
  {
    forall b: Buffer
      ensures Pooled(s', b) <==> Pooled(s, b)
      ensures Pooled(s, b) ==> b < s.next
    {
      if Pooled(s, b) {
        var i: Index :| s.status[i] == Available && s.buffers[i] == Some(b);
        assert s'.status[i] == Available;
        OnlyAt(s, b, InSlot(i));
      }
      if Pooled(s', b) {
        var i: Index :| s'.status[i] == Available && s'.buffers[i] == Some(b);
        assert s.status[i] == Available;
      }
    }
  }

  /** Claiming an available slot takes its buffer, and no other, out of the pool. */
  lemma {:induction false} PoolRemove(s: State, s': State, h: Index, b: Buffer)
    requires Conserved(s) && s.status[h] == Available && s.buffers[h] == Some(b)
    requires s'.status == s.status[h := Loading] && s'.buffers == s.buffers && s'.next == s.next
    ensures b in BagOf(s).pool && BagOf(s').pool == BagOf(s).pool - {b}
  {
    OnlyAt(s, b, InSlot(h));
    forall c: Buffer
      ensures Pooled(s', c) <==> Pooled(s, c) && c != b
    {
      if Pooled(s, c) && c != b {
        var i: Index :| s.status[i] == Available && s.buffers[i] == Some(c);
        assert s'.status[i] == Available;
      }
      if Pooled(s', c) {
        var i: Index :| s'.status[i] == Available && s'.buffers[i] == Some(c);
        assert i != h && At(s, c, InSlot(i));
      }
    }
  }

  /** Making a stored slot available puts its buffer into the pool. */
  lemma {:induction false} PoolInsert(s: State, s': State, t: Index, b: Buffer)
    requires Conserved(s) && s.status[t] == Storing && s.buffers[t] == Some(b)
    requires s'.status == s.status[t := Available] && s'.buffers == s.buffers && s'.next == s.next
    ensures b !in BagOf(s).pool && BagOf(s').pool == BagOf(s).pool + {b}
  {
    OnlyAt(s, b, InSlot(t));
    forall c: Buffer
      ensures Pooled(s', c) <==> Pooled(s, c) || c == b
      ensures c == b ==> !Pooled(s, c)
    {
      if Pooled(s, c) {
        var i: Index :| s.status[i] == Available && s.buffers[i] == Some(c);
        assert s'.status[i] == Available && At(s, c, InSlot(i));
      }
      if c == b {
        assert s'.status[t] == Available;
      }
      if Pooled(s', c) && c != b {
        var i: Index :| s'.status[i] == Available && s'.buffers[i] == Some(c);
        assert i != t;
      }
    }
  }

  /** A step that the bag does not see: the thread keeps what it carries, the books stand. */
  lemma {:induction false} QuietRefines(s: State, p: nat)
    requires Ownership(s) && Conserved(s) && Enabled(s, Step(p))
    requires !s.threads[p].LoadClaim? && !s.threads[p].StorePublish?
    requires !s.threads[p].ObtainDone? && !s.threads[p].ReturnDrop?
    ensures BagOf(StepThread(s, p)) == BagOf(s)
  {
    var s' := StepThread(s, p);
    assert HolderOk(s, s.threads[p]);
    PoolSame(s, s');
    CarriedFrame(s, s', p);
    assert Holds(s', s'.threads[p]) == Holds(s, s.threads[p]) == BagOf(s).carried[p];
  }

  /** A loader's claim: it takes a buffer out, or it spins. */
  lemma {:induction false} ClaimRefines(s: State, p: nat)
    requires Ownership(s) && Conserved(s) && Enabled(s, Step(p)) && s.threads[p].LoadClaim?
    ensures BagStep(BagOf(s), EventOf(s, Step(p)), BagOf(StepThread(s, p)))
  {
    var s', h := StepThread(s, p), s.threads[p].h;
    assert SlotIdleOk(s, h);
    if s.status[h] == Available {
      PoolRemove(s, s', h, s.buffers[h].value);
      CarriedFrame(s, s', p);
    }
  }

  lemma {:induction false} PublishRefines(s: State, p: nat)
    requires Ownership(s) && Conserved(s) && Enabled(s, Step(p)) && s.threads[p].StorePublish?
    ensures BagStep(BagOf(s), EventOf(s, Step(p)), BagOf(StepThread(s, p)))
  {
    var s', t := StepThread(s, p), s.threads[p].t;
    assert HolderOk(s, s.threads[p]);
    PoolInsert(s, s', t, s.buffers[t].value);
    CarriedFrame(s, s', p);
  }

  /** The end of an obtain, and of a return that found the pool full. */
  lemma {:induction false} FinishRefines(s: State, p: nat)
    requires Ownership(s) && Conserved(s) && Enabled(s, Step(p))
    requires s.threads[p].ObtainDone? || s.threads[p].ReturnDrop?
    ensures BagStep(BagOf(s), EventOf(s, Step(p)), BagOf(StepThread(s, p)))
  {
    var s' := StepThread(s, p);
    PoolSame(s, s');
    CarriedFrame(s, s', p);
    assert BagOf(s).carried[p] == Carried(s.threads[p]);
    if Carried(s.threads[p]).Some? {
      OnlyAt(s, Carried(s.threads[p]).value, WithThread(p));
      assert !At(s, Carried(s.threads[p]).value, InHands);
    } else {
      NowhereYet(s);
      assert !At(s, s.next, InHands);
      assert BagOf(s').carried == BagOf(s).carried;
    }
  }

  lemma {:induction false} ThreadRefines(s: State, p: nat)
    requires Ownership(s) && Conserved(s) && Enabled(s, Step(p))
    ensures BagStep(BagOf(s), EventOf(s, Step(p)), BagOf(StepThread(s, p)))
  {
    match s.threads[p] {
      case LoadClaim(_) => ClaimRefines(s, p);
      case StorePublish(_) => PublishRefines(s, p);
      case ObtainDone(_) => FinishRefines(s, p);
      case ReturnDrop(_) => FinishRefines(s, p);
      case _ => QuietRefines(s, p);
    }
  }

  /** Every action of the ring is one atomic operation of the bag, or invisible to it. */
  lemma {:induction false} RefinesBag(s: State, a: Action)
    requires Ownership(s) && Conserved(s) && Enabled(s, a)
    ensures BagStep(BagOf(s), EventOf(s, a), BagOf(Apply(s, a)))
  {
    match a {
      case Step(p) => ThreadRefines(s, p);
      case Provide =>
        PoolSame(s, Apply(s, a));
        assert BagOf(Apply(s, a)).carried == BagOf(s).carried;
      case Discard(_) =>
        PoolSame(s, Apply(s, a));
        assert BagOf(Apply(s, a)).carried == BagOf(s).carried;
      case _ =>
        assert HolderOk(s, s.threads[a.p]);
        PoolSame(s, Apply(s, a));
        CarriedFrame(s, Apply(s, a), a.p);
        assert BagOf(s).carried == BagOf(s).carried[a.p := BagOf(s).carried[a.p]];
    }
  }

  function Events(s: State, run: seq<Action>): seq<Event>
    requires IsRun(s, run)
    decreases |run|
  {
    if run == [] then [] else [EventOf(s, run[0])] + Events(Apply(s, run[0]), run[1..])
  }

  /** `events` leads the bag from `x` to `y`. */
  ghost predicate BagRun(x: Bag, events: seq<Event>, y: Bag)
    decreases |events|
  {
    if events == [] then x == y
    else exists z :: BagStep(x, events[0], z) && BagRun(z, events[1..], y)
  }

  /** Every run of obtains and returns, in every interleaving, is a run of the atomic bag. */
  lemma {:induction false} RunRefinesBag(s: State, run: seq<Action>)
    requires Ownership(s) && Conserved(s) && IsRun(s, run)
    ensures BagRun(BagOf(s), Events(s, run), BagOf(Exec(s, run)))
    decreases |run|
  {
    if run != [] {
      var s' := Apply(s, run[0]);
      RefinesBag(s, run[0]);
      OwnershipStep(s, run[0]);
      ConservedStep(s, run[0]);
      RunRefinesBag(s', run[1..]);
      assert Events(s, run)[1..] == Events(s', run[1..]);
    }
  }

  lemma {:induction false} PoolRefinesBag(threads: nat, run: seq<Action>)
    requires IsRun(Init(threads), run)
    ensures BagOf(Init(threads)) == Bag({}, seq(threads, _ => None), {}, {}, 0)
    ensures BagRun(BagOf(Init(threads)), Events(Init(threads), run), BagOf(Exec(Init(threads), run)))
  {
    OwnershipInit(threads);
    ConservedInit(threads);
    assert BagOf(Init(threads)).carried == seq(threads, _ => None);
    RunRefinesBag(Init(threads), run);
  }
}
