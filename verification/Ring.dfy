/**
 The lock-free buffer pool as a transition system over any number of threads.

 Each atomic access of `ObtainBuffer` and `ReturnBuffer` is one step of the thread that makes
 it; a run interleaves the steps of the threads in any order. Memory is sequentially consistent.
 */
module Ring {
  import opened Wrappers

  const SLOTS: nat := 1024

  type Index = i: int | 0 <= i < SLOTS
  type Buffer = nat

  datatype Status = Empty | Loading | Available | Storing

  type StatusRow = r: seq<Status> | |r| == SLOTS witness seq(SLOTS, _ => Empty)
  type BufferRow = r: seq<Option<Buffer>> | |r| == SLOTS witness seq(SLOTS, _ => None)

  /** Where a thread stands: the next atomic access it makes, and the locals that are live there. */
  datatype Pc =
    | Idle
      // ObtainBuffer
    | ObtainLoadHead
    | ObtainLoadTail(h: Index)
    | ObtainCas(h: Index)
    | LoadClaim(h: Index)
    | LoadTake(h: Index)
    | LoadRelease(h: Index, taken: Option<Buffer>)
    | ObtainDone(result: Option<Buffer>)
      // ReturnBuffer
    | ReturnLoadTail(b: Buffer)
    | ReturnLoadHead(b: Buffer, t: Index)
    | ReturnCas(b: Buffer, t: Index)
    | StoreClaim(b: Buffer, t: Index)
    | StorePut(b: Buffer, t: Index)
    | StorePublish(t: Index)
    | ReturnDrop(b: Buffer)

  /**
   The shared memory, the threads, and the books: buffers in the callers' hands, freed buffers,
   and the next fresh buffer (the buffers below `next` are those allocated so far). `aborted`
   records a failed CHECK.
   */
  datatype State = State(
    buffers: BufferRow,
    status: StatusRow,
    head: Index,
    tail: Index,
    threads: seq<Pc>,
    hands: set<Buffer>,
    freed: set<Buffer>,
    next: nat,
    aborted: bool)

  function Succ(i: Index): Index {
    (i + 1) % SLOTS
  }

  function Init(threads: nat): State {
    State(seq(SLOTS, _ => None), seq(SLOTS, _ => Empty), 0, 0, seq(threads, _ => Idle), {}, {}, 0, false)
  }

  function Goto(s: State, p: nat, pc: Pc): State
    requires p < |s.threads|
  {
    s.(threads := s.threads[p := pc])
  }

  /** The next access of thread `p`, compare-exchange taken as strong. */
  function StepThread(s: State, p: nat): State
    requires p < |s.threads|
  {
    match s.threads[p]
    case Idle => s
    case ObtainLoadHead => Goto(s, p, ObtainLoadTail(s.head))
    case ObtainLoadTail(h) => Goto(s, p, if h == s.tail then ObtainDone(None) else ObtainCas(h))
    case ObtainCas(h) =>
      if s.head == h
      then Goto(s.(head := Succ(h)), p, LoadClaim(h))
      else Goto(s, p, ObtainLoadHead)
    case LoadClaim(h) =>
      if s.status[h] == Available
      then Goto(s.(status := s.status[h := Loading]), p, LoadTake(h))
      else s
    case LoadTake(h) => Goto(s.(buffers := s.buffers[h := None]), p, LoadRelease(h, s.buffers[h]))
    case LoadRelease(h, taken) => Goto(s.(status := s.status[h := Empty]), p, ObtainDone(taken))
    case ObtainDone(result) =>
      (match result
       case Some(b) => Goto(s.(hands := s.hands + {b}), p, Idle)
       case None => Goto(s.(hands := s.hands + {s.next}, next := s.next + 1), p, Idle))
    case ReturnLoadTail(b) => Goto(s, p, ReturnLoadHead(b, s.tail))
    case ReturnLoadHead(b, t) => Goto(s, p, if Succ(t) == s.head then ReturnDrop(b) else ReturnCas(b, t))
    case ReturnCas(b, t) =>
      if s.tail == t
      then Goto(s.(tail := Succ(t)), p, StoreClaim(b, t))
      else Goto(s, p, ReturnLoadTail(b))
    case StoreClaim(b, t) =>
      if s.status[t] == Empty
      then Goto(s.(status := s.status[t := Storing]), p, StorePut(b, t))
      else s
    case StorePut(b, t) =>
      if s.buffers[t] != None
      then s.(aborted := true)
      else Goto(s.(buffers := s.buffers[t := Some(b)]), p, StorePublish(t))
    case StorePublish(t) => Goto(s.(status := s.status[t := Available]), p, Idle)
    case ReturnDrop(b) => Goto(s.(freed := s.freed + {b}), p, Idle)
  }

  /** A compare_exchange_weak that fails although the value matched. */
  function SpuriousStep(s: State, p: nat): State
    requires p < |s.threads|
  {
    match s.threads[p]
    case ObtainCas(h) => Goto(s, p, ObtainLoadHead)
    case ReturnCas(b, t) => Goto(s, p, ReturnLoadTail(b))
    case _ => s
  }

  datatype Action =
    | StartObtain(p: nat)
    | StartReturn(p: nat, b: Buffer)
    | Provide                 // a caller allocates a buffer itself
    | Discard(b: Buffer)      // a caller frees a buffer itself
    | Step(p: nat)
    | SpuriousFail(p: nat)

  predicate IsCas(pc: Pc) {
    pc.ObtainCas? || pc.LoadClaim? || pc.ReturnCas? || pc.StoreClaim?
  }

  predicate Enabled(s: State, a: Action) {
    && !s.aborted
    && match a
       case StartObtain(p) => p < |s.threads| && s.threads[p] == Idle
       case StartReturn(p, b) => p < |s.threads| && s.threads[p] == Idle && b in s.hands
       case Provide => true
       case Discard(b) => b in s.hands
       case Step(p) => p < |s.threads| && s.threads[p] != Idle
       case SpuriousFail(p) => p < |s.threads| && IsCas(s.threads[p])
  }

  function Apply(s: State, a: Action): State
    requires Enabled(s, a)
  {
    match a
    case StartObtain(p) => Goto(s, p, ObtainLoadHead)
    case StartReturn(p, b) => Goto(s.(hands := s.hands - {b}), p, ReturnLoadTail(b))
    case Provide => s.(hands := s.hands + {s.next}, next := s.next + 1)
    case Discard(b) => s.(hands := s.hands - {b}, freed := s.freed + {b})
    case Step(p) => StepThread(s, p)
    case SpuriousFail(p) => SpuriousStep(s, p)
  }

  predicate IsRun(s: State, run: seq<Action>)
    decreases |run|
  {
    run == [] || (Enabled(s, run[0]) && IsRun(Apply(s, run[0]), run[1..]))
  }

  function Exec(s: State, run: seq<Action>): State
    requires IsRun(s, run)
    decreases |run|
  {
    if run == [] then s else Exec(Apply(s, run[0]), run[1..])
  }

  predicate Quiescent(s: State) {
    forall p :: 0 <= p < |s.threads| ==> s.threads[p] == Idle
  }

  /** The step a spinning thread makes: it waits for a slot whose status is not yet right. */
  predicate Spins(s: State, pc: Pc) {
    || (pc.LoadClaim? && s.status[pc.h] != Available)
    || (pc.StoreClaim? && s.status[pc.t] != Empty)
  }

  /** An enabled step that is not a spin. */
  predicate Progresses(s: State, p: nat) {
    Enabled(s, Step(p)) && !Spins(s, s.threads[p])
  }

  /** Runs compose. */
  lemma {:induction false} RunConcat(s: State, a: seq<Action>, b: seq<Action>)
    requires IsRun(s, a) && IsRun(Exec(s, a), b)
    ensures IsRun(s, a + b) && Exec(s, a + b) == Exec(Exec(s, a), b)
    decreases |a|
  {
    if a == [] {
      assert a + b == b;
    } else {
      RunConcat(Apply(s, a[0]), a[1..], b);
      assert (a + b)[1..] == a[1..] + b;
    }
  }
}
