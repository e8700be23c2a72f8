/**
 Buffer conservation: in every interleaving each buffer ever allocated is in exactly one place.
 Nothing here depends on the indices or on the status words.
 */
module RingConservation {
  import opened Wrappers
  import opened Ring

  datatype Place = InSlot(i: Index) | WithThread(p: nat) | InHands | Freed

  /** The buffer a thread carries in its locals. */
  function Carried(pc: Pc): Option<Buffer> {
    match pc
    case LoadRelease(_, taken) => taken
    case ObtainDone(result) => result
    case ReturnLoadTail(b) => Some(b)
    case ReturnLoadHead(b, _) => Some(b)
    case ReturnCas(b, _) => Some(b)
    case StoreClaim(b, _) => Some(b)
    case StorePut(b, _) => Some(b)
    case ReturnDrop(b) => Some(b)
    case _ => None
  }

  predicate At(s: State, b: Buffer, x: Place) {
    match x
    case InSlot(i) => s.buffers[i] == Some(b)
    case WithThread(p) => p < |s.threads| && Carried(s.threads[p]) == Some(b)
    case InHands => b in s.hands
    case Freed => b in s.freed
  }

  ghost predicate Somewhere(s: State, b: Buffer) {
    exists x :: At(s, b, x)
  }

  /** Every allocated buffer is in one place, no buffer is in two, and only allocated ones exist. */
  ghost predicate Conserved(s: State) {
    && (forall b: Buffer, x, y :: At(s, b, x) && At(s, b, y) ==> x == y)
    && (forall b: Buffer :: Somewhere(s, b) <==> b < s.next)
  }

  /** A buffer that is at `x` is allocated and is nowhere else. */
  lemma {:induction false} OnlyAt(s: State, b: Buffer, x: Place)
    requires Conserved(s) && At(s, b, x)
    ensures b < s.next
    ensures forall z :: At(s, b, z) ==> z == x
  {
    assert Somewhere(s, b);
  }

  /** The next buffer to be allocated is nowhere yet. */
  lemma {:induction false} NowhereYet(s: State)
    requires Conserved(s)
    ensures forall z :: !At(s, s.next, z)
  {
    assert !Somewhere(s, s.next);
  }

  /** Buffer `b` left `from` (or is fresh) and arrived at `to`; every other buffer stayed put. */
  ghost predicate Relocated(s: State, s': State, b: Buffer, from: Option<Place>, to: Place) {
    && At(s', b, to)
    && (forall z :: At(s', b, z) ==> z == to || (At(s, b, z) && Some(z) != from))
    && (forall c: Buffer, z :: c != b ==> (At(s', c, z) <==> At(s, c, z)))
  }

  /** Relocating one buffer, old or fresh, conserves buffers. */
  lemma {:induction false} ConservedMove(s: State, s': State, b: Buffer, from: Option<Place>, to: Place)
    requires Conserved(s) && Relocated(s, s', b, from, to)
    requires match from
             case Some(x) => At(s, b, x) && s'.next == s.next
             case None => b == s.next && s'.next == s.next + 1
    ensures Conserved(s')
  {
    match from {
      case Some(x) => OnlyAt(s, b, x);
      case None => NowhereYet(s);
    }
    forall c: Buffer | c != b
      ensures Somewhere(s', c) <==> Somewhere(s, c)
    {
      if Somewhere(s, c) {
        var x :| At(s, c, x);
        assert At(s', c, x);
      }
    }
  }

  lemma {:induction false} ConservedSame(s: State, s': State)
    requires Conserved(s) && s'.next == s.next
    requires forall c: Buffer, z :: At(s', c, z) <==> At(s, c, z)
    ensures Conserved(s')
  {
    forall c: Buffer
      ensures Somewhere(s', c) <==> Somewhere(s, c)
    {
      if Somewhere(s, c) {
        var x :| At(s, c, x);
        assert At(s', c, x);
      }
    }
  }

  lemma {:induction false} ConservedInit(threads: nat)
    ensures Conserved(Init(threads))
  {
  }

  lemma {:induction false} ConservedTake(s: State, p: nat)
    requires Conserved(s) && Enabled(s, Step(p)) && s.threads[p].LoadTake?
    ensures Conserved(StepThread(s, p))
  {
    var s', h := StepThread(s, p), s.threads[p].h;
    if s.buffers[h].Some? {
      ConservedMove(s, s', s.buffers[h].value, Some(InSlot(h)), WithThread(p));
    } else {
      ConservedSame(s, s');
    }
  }

  lemma {:induction false} ConservedPut(s: State, p: nat)
    requires Conserved(s) && Enabled(s, Step(p)) && s.threads[p].StorePut?
    ensures Conserved(StepThread(s, p))
  {
    var s', t := StepThread(s, p), s.threads[p].t;
    if s.buffers[t] == None {
      ConservedMove(s, s', s.threads[p].b, Some(WithThread(p)), InSlot(t));
    } else {
      ConservedSame(s, s');
    }
  }

  lemma {:induction false} ConservedFinish(s: State, p: nat)
    requires Conserved(s) && Enabled(s, Step(p)) && (s.threads[p].ObtainDone? || s.threads[p].ReturnDrop?)
    ensures Conserved(StepThread(s, p))
  {
    var s' := StepThread(s, p);
    match s.threads[p] {
      case ObtainDone(Some(b)) => ConservedMove(s, s', b, Some(WithThread(p)), InHands);
      case ObtainDone(None) => ConservedMove(s, s', s.next, None, InHands);
      case ReturnDrop(b) => ConservedMove(s, s', b, Some(WithThread(p)), Freed);
    }
  }

  lemma {:induction false} ConservedThread(s: State, p: nat)
    requires Conserved(s) && Enabled(s, Step(p))
    ensures Conserved(StepThread(s, p))
  {
    match s.threads[p] {
      case LoadTake(_) => ConservedTake(s, p);
      case StorePut(_, _) => ConservedPut(s, p);
      case ObtainDone(_) => ConservedFinish(s, p);
      case ReturnDrop(_) => ConservedFinish(s, p);
      case _ => ConservedSame(s, StepThread(s, p));
    }
  }

  lemma {:induction false} ConservedStep(s: State, a: Action)
    requires Conserved(s) && Enabled(s, a)
    ensures Conserved(Apply(s, a))
  {
    var s' := Apply(s, a);
    match a {
      case Step(p) => ConservedThread(s, p);
      case StartReturn(p, b) =>
        ConservedMove(s, s', b, Some(InHands), WithThread(p));
      case Provide =>
        ConservedMove(s, s', s.next, None, InHands);
      case Discard(b) =>
        ConservedMove(s, s', b, Some(InHands), Freed);
      case _ => ConservedSame(s, s');
    }
  }

  /** Each buffer ever allocated stays in exactly one place along every run. */
  lemma {:induction false} ConservedRun(s: State, run: seq<Action>)
    requires Conserved(s) && IsRun(s, run)
    ensures Conserved(Exec(s, run))
    decreases |run|
  {
    if run != [] {
      ConservedStep(s, run[0]);
      ConservedRun(Apply(s, run[0]), run[1..]);
    }
  }

  /**
   The facade hands a caller exactly one buffer, never null, and one that nobody else has: it was
   in no caller's hands, in no slot, with no other thread and not freed.
   */
  lemma {:induction false} HandOut(threads: nat, run: seq<Action>, p: nat)
    requires IsRun(Init(threads), run)
    requires Enabled(Exec(Init(threads), run), Step(p)) && Exec(Init(threads), run).threads[p].ObtainDone?
    ensures var s := Exec(Init(threads), run);
      exists b: Buffer ::
        && StepThread(s, p).hands == s.hands + {b}
        && forall x :: At(s, b, x) ==> x == WithThread(p)
  {
    var s := Exec(Init(threads), run);
    ConservedInit(threads);
    ConservedRun(Init(threads), run);
    match s.threads[p].result {
      case Some(b) =>
        OnlyAt(s, b, WithThread(p));
        assert StepThread(s, p).hands == s.hands + {b};
      case None =>
        assert StepThread(s, p).hands == s.hands + {s.next};
        NowhereYet(s);
    }
  }
}
