/**
 Every operation comes to its proper end. An obtain that was begun is either still at work or has
 handed out one buffer; a return that was begun is either still at work or has put its buffer into
 the pool or freed it. None is abandoned, and none ends twice.
 */
module RingOperations {
  import opened Wrappers
  import opened Ring
  import opened RingOwnership
  import opened RingBag

  predicate Obtains(pc: Pc) {
    || pc.ObtainLoadHead? || pc.ObtainLoadTail? || pc.ObtainCas?
    || pc.LoadClaim? || pc.LoadTake? || pc.LoadRelease? || pc.ObtainDone?
  }

  predicate Returns(pc: Pc) {
    !Obtains(pc) && pc != Idle
  }

  function One(b: bool): nat {
    if b then 1 else 0
  }

  /** The number of obtains that thread `p` began. */
  function ObtainsBegun(run: seq<Action>, p: nat): nat {
    if run == [] then 0 else One(run[0] == StartObtain(p)) + ObtainsBegun(run[1..], p)
  }

  function ReturnsBegun(run: seq<Action>, p: nat): nat {
    if run == [] then 0 else One(run[0].StartReturn? && run[0].p == p) + ReturnsBegun(run[1..], p)
  }

  predicate HandsOut(e: Event, p: nat) {
    (e.Deliver? || e.Allocate?) && e.p == p
  }

  predicate TakesBack(e: Event, p: nat) {
    (e.Insert? || e.Drop?) && e.p == p
  }

  /** The number of buffers that thread `p` handed out. */
  function HandOuts(events: seq<Event>, p: nat): nat {
    if events == [] then 0 else One(HandsOut(events[0], p)) + HandOuts(events[1..], p)
  }

  /** The number of buffers that thread `p` put into the pool or freed. */
  function TakeBacks(events: seq<Event>, p: nat): nat {
    if events == [] then 0 else One(TakesBack(events[0], p)) + TakeBacks(events[1..], p)
  }

  /** One action: what begins, what ends, and what is at work before and after. */
  lemma {:induction false} OperationStep(s: State, a: Action, p: nat)
    requires Ownership(s) && Enabled(s, a) && p < |s.threads|
    ensures p < |Apply(s, a).threads|
    ensures One(Obtains(s.threads[p])) + One(a == StartObtain(p))
         == One(HandsOut(EventOf(s, a), p)) + One(Obtains(Apply(s, a).threads[p]))
    ensures One(Returns(s.threads[p])) + One(a.StartReturn? && a.p == p)
         == One(TakesBack(EventOf(s, a), p)) + One(Returns(Apply(s, a).threads[p]))
  {
    assert HolderOk(s, s.threads[p]);
  }

  lemma {:induction false} OperationsFrom(s: State, run: seq<Action>, p: nat)
    requires Ownership(s) && IsRun(s, run) && p < |s.threads|
    ensures p < |Exec(s, run).threads|
    ensures One(Obtains(s.threads[p])) + ObtainsBegun(run, p)
         == HandOuts(Events(s, run), p) + One(Obtains(Exec(s, run).threads[p]))
    ensures One(Returns(s.threads[p])) + ReturnsBegun(run, p)
         == TakeBacks(Events(s, run), p) + One(Returns(Exec(s, run).threads[p]))
    decreases |run|
  {
    if run != [] {
      var s', rest := Apply(s, run[0]), run[1..];
      OperationStep(s, run[0], p);
      OwnershipStep(s, run[0]);
      OperationsFrom(s', rest, p);
      assert Events(s, run)[1..] == Events(s', rest);
    }
  }

  /**
   The account of a thread's operations, in every interleaving: as many obtains were begun as buffers
   were handed out, but for one that may be at work; and as many returns as buffers were put into the
   pool or freed, but for one that may be at work.
   */
  lemma {:induction false} OperationsEnd(threads: nat, run: seq<Action>, p: nat)
    requires IsRun(Init(threads), run) && p < threads
    ensures p < |Exec(Init(threads), run).threads|
    ensures var pc, events := Exec(Init(threads), run).threads[p], Events(Init(threads), run);
      && ObtainsBegun(run, p) == HandOuts(events, p) + One(Obtains(pc))
      && ReturnsBegun(run, p) == TakeBacks(events, p) + One(Returns(pc))
  {
    OwnershipInit(threads);
    OperationsFrom(Init(threads), run, p);
  }
}
