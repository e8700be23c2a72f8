/**
 Where the decisions of the ring come from, in every interleaving: an obtain misses only because the
 head it loaded is the tail it loaded next, a return drops its buffer only because the tail it loaded
 is right behind the head it loaded next, and a compare-exchange is tried only after such a test
 came out the other way. Losing a compare-exchange decides nothing: the operation starts over.
 */
module RingHistory {
  import opened Wrappers
  import opened Ring
  import opened RingOwnership

  // One step.

  /** An obtain turns into a miss in exactly one kind of step. */
  lemma {:induction false} MissArises(s: State, a: Action, p: nat)
    requires Ownership(s) && Enabled(s, a) && p < |s.threads| && s.threads[p] != ObtainDone(None)
    ensures Apply(s, a).threads[p] == ObtainDone(None) <==> a == Step(p) && s.threads[p] == ObtainLoadTail(s.tail)
  {
    assert HolderOk(s, s.threads[p]);
  }

  /** A return turns into a drop in exactly one kind of step. */
  lemma {:induction false} DropArises(s: State, a: Action, p: nat)
    requires Enabled(s, a) && p < |s.threads| && !s.threads[p].ReturnDrop?
    ensures Apply(s, a).threads[p].ReturnDrop?
       <==> a == Step(p) && s.threads[p].ReturnLoadHead? && Succ(s.threads[p].t) == s.head
  {
  }

  /** A lost compare-exchange on an index, really or spuriously, makes the operation load both indices anew. */
  lemma {:induction false} LostMeansRetry(s: State, a: Action, p: nat)
    requires Enabled(s, a) && p < |s.threads| && (a == Step(p) || a == SpuriousFail(p))
    ensures s.threads[p].ObtainCas? && Apply(s, a).head == s.head ==> Apply(s, a) == Goto(s, p, ObtainLoadHead)
    ensures s.threads[p].ReturnCas? && Apply(s, a).tail == s.tail ==>
      Apply(s, a) == Goto(s, p, ReturnLoadTail(s.threads[p].b))
  {
  }

  // Runs.

  /** The state before action `k` of a run. */
  function At(s: State, run: seq<Action>, k: nat): State
    requires IsRun(s, run) && k <= |run|
    decreases k
  {
    if k == 0 then s else At(Apply(s, run[0]), run[1..], k - 1)
  }

  predicate MovesThread(a: Action, p: nat) {
    !a.Provide? && !a.Discard? && a.p == p
  }

  /** Thread `p` made a step at `i`, in state `x`, and has not moved since, up to `n`. */
  predicate SteppedAt(s: State, run: seq<Action>, p: nat, i: nat, n: nat, x: State) {
    && IsRun(s, run) && i < n <= |run|
    && run[i] == Step(p) && At(s, run, i) == x
    && forall j :: i < j < n ==> !MovesThread(run[j], p)
  }

  /** The last two moves of thread `p`: steps at `i`, in state `x`, and at `k`, in state `y`. */
  predicate SteppedTwice(s: State, run: seq<Action>, p: nat, i: nat, x: State, k: nat, y: State) {
    SteppedAt(s, run, p, i, k, x) && SteppedAt(s, run, p, k, |run|, y)
  }

  lemma {:induction false} AtEnd(s: State, run: seq<Action>)
    requires IsRun(s, run)
    ensures At(s, run, |run|) == Exec(s, run)
    decreases |run|
  {
    if run != [] { AtEnd(Apply(s, run[0]), run[1..]); }
  }

  lemma {:induction false} AtPrefix(s: State, run: seq<Action>, a: Action, k: nat)
    requires IsRun(s, run) && IsRun(s, run + [a]) && k <= |run|
    ensures At(s, run + [a], k) == At(s, run, k)
    decreases k
  {
    if k > 0 {
      assert (run + [a])[1..] == run[1..] + [a];
      AtPrefix(Apply(s, run[0]), run[1..], a, k - 1);
    }
  }

  /** One more action of another thread leaves the last moves of `p` what they were. */
  lemma {:induction false} StillStepped(s: State, run: seq<Action>, a: Action, p: nat, i: nat, n: nat, x: State)
    requires IsRun(s, run + [a]) && SteppedAt(s, run, p, i, n, x)
    ensures SteppedAt(s, run + [a], p, i, n, x)
    ensures n == |run| && !MovesThread(a, p) ==> SteppedAt(s, run + [a], p, i, n + 1, x)
  {
    AtPrefix(s, run, a, i);
  }

  lemma {:induction false} JustStepped(s: State, run: seq<Action>, p: nat)
    requires IsRun(s, run) && IsRun(s, run + [Step(p)])
    ensures SteppedAt(s, run + [Step(p)], p, |run|, |run| + 1, Exec(s, run))
  {
    AtPrefix(s, run, Step(p), |run|);
    AtEnd(s, run);
  }

  /** `p` loaded `head` as `h`. */
  ghost predicate LoadedHead(s: State, run: seq<Action>, p: nat, h: Index) {
    exists i, x :: SteppedAt(s, run, p, i, |run|, x) && HeadLoad(x, p, h)
  }

  predicate HeadLoad(x: State, p: nat, h: Index) {
    p < |x.threads| && x.threads[p] == ObtainLoadHead && x.head == h
  }

  /** `p` loaded `head` as `h` and then `tail`, and found them equal or not. */
  ghost predicate TestedHead(s: State, run: seq<Action>, p: nat, h: Index, equal: bool) {
    exists i, x, k, y :: SteppedTwice(s, run, p, i, x, k, y) && HeadLoad(x, p, h) && (y.tail == h) == equal
  }

  ghost predicate LoadedTail(s: State, run: seq<Action>, p: nat, b: Buffer, t: Index) {
    exists i, x :: SteppedAt(s, run, p, i, |run|, x) && TailLoad(x, p, b, t)
  }

  predicate TailLoad(x: State, p: nat, b: Buffer, t: Index) {
    p < |x.threads| && x.threads[p] == ReturnLoadTail(b) && x.tail == t
  }

  /** `p` loaded `tail` as `t` and then `head`, and found `head` right behind it or not. */
  ghost predicate TestedTail(s: State, run: seq<Action>, p: nat, b: Buffer, t: Index, full: bool) {
    exists i, x, k, y :: SteppedTwice(s, run, p, i, x, k, y) && TailLoad(x, p, b, t) && (y.head == Succ(t)) == full
  }

  /** What the place of a thread says about its last moves. */
  ghost predicate Explained(s: State, run: seq<Action>, p: nat, pc: Pc) {
    match pc
    case ObtainLoadTail(h) => LoadedHead(s, run, p, h)
    case ObtainCas(h) => TestedHead(s, run, p, h, false)
    case ObtainDone(None) => exists h :: TestedHead(s, run, p, h, true)
    case ReturnLoadHead(b, t) => LoadedTail(s, run, p, b, t)
    case ReturnCas(b, t) => TestedTail(s, run, p, b, t, false)
    case ReturnDrop(b) => exists t :: TestedTail(s, run, p, b, t, true)
    case _ => true
  }

  lemma {:induction false} LoadedStands(s: State, run: seq<Action>, a: Action, p: nat)
    requires IsRun(s, run) && IsRun(s, run + [a]) && !MovesThread(a, p)
    ensures forall h :: LoadedHead(s, run, p, h) ==> LoadedHead(s, run + [a], p, h)
    ensures forall b, t :: LoadedTail(s, run, p, b, t) ==> LoadedTail(s, run + [a], p, b, t)
  {
    forall h | LoadedHead(s, run, p, h)
      ensures LoadedHead(s, run + [a], p, h)
    {
      var i, x :| SteppedAt(s, run, p, i, |run|, x) && HeadLoad(x, p, h);
      StillStepped(s, run, a, p, i, |run|, x);
    }
    forall b, t | LoadedTail(s, run, p, b, t)
      ensures LoadedTail(s, run + [a], p, b, t)
    {
      var i, x :| SteppedAt(s, run, p, i, |run|, x) && TailLoad(x, p, b, t);
      StillStepped(s, run, a, p, i, |run|, x);
    }
  }

  lemma {:induction false} TwiceStands(s: State, run: seq<Action>, a: Action, p: nat,
                                       i: nat, x: State, k: nat, y: State)
    requires IsRun(s, run) && IsRun(s, run + [a]) && !MovesThread(a, p) && SteppedTwice(s, run, p, i, x, k, y)
    ensures SteppedTwice(s, run + [a], p, i, x, k, y)
  {
    StillStepped(s, run, a, p, i, k, x);
    StillStepped(s, run, a, p, k, |run|, y);
  }

  lemma {:induction false} TestedStands(s: State, run: seq<Action>, a: Action, p: nat)
    requires IsRun(s, run) && IsRun(s, run + [a]) && !MovesThread(a, p)
    ensures forall h, e :: TestedHead(s, run, p, h, e) ==> TestedHead(s, run + [a], p, h, e)
    ensures forall b, t, f :: TestedTail(s, run, p, b, t, f) ==> TestedTail(s, run + [a], p, b, t, f)
  {
    forall h, e | TestedHead(s, run, p, h, e)
      ensures TestedHead(s, run + [a], p, h, e)
    {
      var i, x, k, y :| SteppedTwice(s, run, p, i, x, k, y) && HeadLoad(x, p, h) && (y.tail == h) == e;
      TwiceStands(s, run, a, p, i, x, k, y);
    }
    forall b, t, f | TestedTail(s, run, p, b, t, f)
      ensures TestedTail(s, run + [a], p, b, t, f)
    {
      var i, x, k, y :| SteppedTwice(s, run, p, i, x, k, y) && TailLoad(x, p, b, t) && (y.head == Succ(t)) == f;
      TwiceStands(s, run, a, p, i, x, k, y);
    }
  }

  /** The second load makes the test. */
  lemma {:induction false} HeadTest(s: State, run: seq<Action>, p: nat, h: Index)
    requires IsRun(s, run) && IsRun(s, run + [Step(p)]) && LoadedHead(s, run, p, h)
    ensures TestedHead(s, run + [Step(p)], p, h, Exec(s, run).tail == h)
  {
    var i, x :| SteppedAt(s, run, p, i, |run|, x) && HeadLoad(x, p, h);
    StillStepped(s, run, Step(p), p, i, |run|, x);
    JustStepped(s, run, p);
    assert SteppedTwice(s, run + [Step(p)], p, i, x, |run|, Exec(s, run));
  }

  lemma {:induction false} TailTest(s: State, run: seq<Action>, p: nat, b: Buffer, t: Index)
    requires IsRun(s, run) && IsRun(s, run + [Step(p)]) && LoadedTail(s, run, p, b, t)
    ensures TestedTail(s, run + [Step(p)], p, b, t, Exec(s, run).head == Succ(t))
  {
    var i, x :| SteppedAt(s, run, p, i, |run|, x) && TailLoad(x, p, b, t);
    StillStepped(s, run, Step(p), p, i, |run|, x);
    JustStepped(s, run, p);
    assert SteppedTwice(s, run + [Step(p)], p, i, x, |run|, Exec(s, run));
  }

  lemma {:induction false} HeadLoaded(s: State, run: seq<Action>, p: nat)
    requires IsRun(s, run) && IsRun(s, run + [Step(p)]) && HeadLoad(Exec(s, run), p, Exec(s, run).head)
    ensures LoadedHead(s, run + [Step(p)], p, Exec(s, run).head)
  {
    JustStepped(s, run, p);
  }

  lemma {:induction false} TailLoaded(s: State, run: seq<Action>, p: nat, b: Buffer)
    requires IsRun(s, run) && IsRun(s, run + [Step(p)]) && TailLoad(Exec(s, run), p, b, Exec(s, run).tail)
    ensures LoadedTail(s, run + [Step(p)], p, b, Exec(s, run).tail)
  {
    JustStepped(s, run, p);
  }

  /** The steps that load an index. */
  predicate Loads(pc: Pc) {
    pc.ObtainLoadHead? || pc.ObtainLoadTail? || pc.ReturnLoadTail? || pc.ReturnLoadHead?
  }

  /** The places that are explained by last moves. */
  predicate Decided(pc: Pc) {
    || pc.ObtainLoadTail? || pc.ObtainCas? || pc == ObtainDone(None)
    || pc.ReturnLoadHead? || pc.ReturnCas? || pc.ReturnDrop?
  }

  /** Only loads lead there. */
  lemma {:induction false} OnlyLoadsDecide(s: State, p: nat)
    requires Ownership(s) && Enabled(s, Step(p)) && !Loads(s.threads[p]) && StepThread(s, p).threads[p] != s.threads[p]
    ensures !Decided(StepThread(s, p).threads[p])
  {
    assert HolderOk(s, s.threads[p]);
  }

  lemma {:induction false} ExplainedLoad(s: State, run: seq<Action>, p: nat, pc: Pc)
    requires IsRun(s, run) && Enabled(Exec(s, run), Step(p)) && IsRun(s, run + [Step(p)])
    requires pc == Exec(s, run).threads[p] && Loads(pc) && Explained(s, run, p, pc)
    ensures Explained(s, run + [Step(p)], p, StepThread(Exec(s, run), p).threads[p])
  {
    match pc {
      case ObtainLoadHead => HeadLoaded(s, run, p);
      case ObtainLoadTail(h) => HeadTest(s, run, p, h);
      case ReturnLoadTail(b) => TailLoaded(s, run, p, b);
      case ReturnLoadHead(b, t) => TailTest(s, run, p, b, t);
    }
  }

  lemma {:induction false} Undecided(s: State, run: seq<Action>, p: nat, pc: Pc)
    requires !Decided(pc)
    ensures Explained(s, run, p, pc)
  {
  }

  /** Steps that change nothing of the thread are spins and failed checks, which are not decided places. */
  lemma {:induction false} StandingUndecided(s: State, p: nat)
    requires Enabled(s, Step(p)) && StepThread(s, p).threads[p] == s.threads[p]
    ensures !Decided(s.threads[p])
  {
  }

  /** One step of the thread itself. */
  lemma {:induction false} ExplainedOwn(s: State, run: seq<Action>, p: nat)
    requires IsRun(s, run) && Ownership(Exec(s, run)) && Enabled(Exec(s, run), Step(p)) && IsRun(s, run + [Step(p)])
    requires Explained(s, run, p, Exec(s, run).threads[p])
    ensures Explained(s, run + [Step(p)], p, StepThread(Exec(s, run), p).threads[p])
  {
    var m := Exec(s, run);
    if Loads(m.threads[p]) {
      ExplainedLoad(s, run, p, m.threads[p]);
    } else {
      if StepThread(m, p).threads[p] == m.threads[p] { StandingUndecided(m, p); } else { OnlyLoadsDecide(m, p); }
      Undecided(s, run + [Step(p)], p, StepThread(m, p).threads[p]);
    }
  }

  lemma {:induction false} ExplainedOther(s: State, run: seq<Action>, a: Action, p: nat, pc: Pc)
    requires IsRun(s, run) && IsRun(s, run + [a]) && !MovesThread(a, p) && Explained(s, run, p, pc)
    ensures Explained(s, run + [a], p, pc)
  {
    LoadedStands(s, run, a, p);
    TestedStands(s, run, a, p);
  }

  /** Starting an operation and failing spuriously decide nothing. */
  lemma {:induction false} StartUndecided(s: State, a: Action, p: nat)
    requires Enabled(s, a) && MovesThread(a, p) && a != Step(p)
    ensures p < |s.threads| == |Apply(s, a).threads| && !Decided(Apply(s, a).threads[p])
  {
  }

  lemma {:induction false} ExplainedStep(s: State, run: seq<Action>, a: Action, p: nat)
    requires IsRun(s, run) && Ownership(Exec(s, run)) && Enabled(Exec(s, run), a) && IsRun(s, run + [a])
    requires p < |Exec(s, run).threads| == |Apply(Exec(s, run), a).threads|
    requires Explained(s, run, p, Exec(s, run).threads[p])
    ensures Explained(s, run + [a], p, Apply(Exec(s, run), a).threads[p])
  {
    var m := Exec(s, run);
    if a == Step(p) {
      ExplainedOwn(s, run, p);
    } else if MovesThread(a, p) {
      StartUndecided(m, a, p);
      Undecided(s, run + [a], p, Apply(m, a).threads[p]);
    } else {
      assert Apply(m, a).threads[p] == m.threads[p];
      ExplainedOther(s, run, a, p, m.threads[p]);
    }
  }

  lemma {:induction false} Threads(s: State, run: seq<Action>)
    requires IsRun(s, run)
    ensures |Exec(s, run).threads| == |s.threads|
    decreases |run|
  {
    if run != [] { Threads(Apply(s, run[0]), run[1..]); }
  }

  lemma {:induction false} RunPrefix(s: State, run: seq<Action>, a: Action)
    requires IsRun(s, run + [a])
    ensures IsRun(s, run) && Enabled(Exec(s, run), a) && Exec(s, run + [a]) == Apply(Exec(s, run), a)
    decreases |run|
  {
    if run == [] {
      assert run + [a] == [a] && [a][1..] == [];
    } else {
      assert (run + [a])[1..] == run[1..] + [a];
      RunPrefix(Apply(s, run[0]), run[1..], a);
    }
  }

  lemma {:induction false} ExplainedRun(threads: nat, run: seq<Action>, p: nat)
    requires IsRun(Init(threads), run) && p < threads
    ensures |Exec(Init(threads), run).threads| == threads
    ensures Explained(Init(threads), run, p, Exec(Init(threads), run).threads[p])
    decreases |run|
  {
    Threads(Init(threads), run);
    if run == [] {
      Undecided(Init(threads), run, p, Idle);
    } else {
      var before, a := run[..|run| - 1], run[|run| - 1];
      assert run == before + [a];
      RunPrefix(Init(threads), before, a);
      ExplainedRun(threads, before, p);
      OwnershipInit(threads);
      OwnershipRun(Init(threads), before);
      Threads(Init(threads), before);
      ExplainedStep(Init(threads), before, a, p);
    }
  }

  /**
   Whenever a thread is about to hand out a fresh buffer, then in its last two moves it loaded `head`
   and then `tail`, and the two loads gave the same index.
   */
  lemma {:induction false} MissFollowsTest(threads: nat, run: seq<Action>, p: nat)
    requires IsRun(Init(threads), run) && p < threads
    ensures |Exec(Init(threads), run).threads| == threads
    ensures Exec(Init(threads), run).threads[p] == ObtainDone(None) ==>
      exists i, x, k, y :: SteppedTwice(Init(threads), run, p, i, x, k, y) && HeadLoad(x, p, x.head) && y.tail == x.head
  {
    ExplainedRun(threads, run, p);
    var s := Init(threads);
    if Exec(s, run).threads[p] == ObtainDone(None) {
      var h :| TestedHead(s, run, p, h, true);
      var i, x, k, y :| SteppedTwice(s, run, p, i, x, k, y) && HeadLoad(x, p, h) && (y.tail == h) == true;
      assert SteppedTwice(s, run, p, i, x, k, y) && HeadLoad(x, p, x.head) && y.tail == x.head;
    }
  }

  /**
   Whenever a thread is about to free a buffer, then in its last two moves it loaded `tail` and then
   `head`, and `head` was right behind `tail`.
   */
  lemma {:induction false} DropFollowsTest(threads: nat, run: seq<Action>, p: nat)
    requires IsRun(Init(threads), run) && p < threads
    ensures |Exec(Init(threads), run).threads| == threads
    ensures var m := Exec(Init(threads), run);
      m.threads[p].ReturnDrop? ==>
        exists i, x, k, y :: SteppedTwice(Init(threads), run, p, i, x, k, y)
                             && TailLoad(x, p, m.threads[p].b, x.tail) && y.head == Succ(x.tail)
  {
    ExplainedRun(threads, run, p);
    var s, m := Init(threads), Exec(Init(threads), run);
    if m.threads[p].ReturnDrop? {
      var b := m.threads[p].b;
      var t :| TestedTail(s, run, p, b, t, true);
      var i, x, k, y :| SteppedTwice(s, run, p, i, x, k, y) && TailLoad(x, p, b, t) && (y.head == Succ(t)) == true;
      assert SteppedTwice(s, run, p, i, x, k, y) && TailLoad(x, p, b, x.tail) && y.head == Succ(x.tail);
    }
  }

  /** And a compare-exchange is tried only after the last two loads did not give that. */
  lemma {:induction false} TryFollowsTest(threads: nat, run: seq<Action>, p: nat)
    requires IsRun(Init(threads), run) && p < threads
    ensures |Exec(Init(threads), run).threads| == threads
    ensures var pc := Exec(Init(threads), run).threads[p];
      && (pc.ObtainCas? ==> TestedHead(Init(threads), run, p, pc.h, false))
      && (pc.ReturnCas? ==> TestedTail(Init(threads), run, p, pc.b, pc.t, false))
  {
    ExplainedRun(threads, run, p);
  }
}
