/**
 Operations of the ring that run alone, while the other threads stand still wherever they are.
 Every such run, with any spurious failures on the way, goes through the same few stages.
 */
module RingSolo {
  import opened Wrappers
  import opened Ring

  /** Only thread `p` moves. */
  predicate Alone(run: seq<Action>, p: nat) {
    forall k :: 0 <= k < |run| ==> run[k] == Step(p) || run[k] == SpuriousFail(p)
  }

  // Returning a buffer.

  /** The return of `b` by `p`, begun in `s`, finds a free and empty slot, or no room at all. */
  predicate CanReturn(s: State, p: nat, b: Buffer) {
    && Enabled(s, StartReturn(p, b))
    && (Succ(s.tail) != s.head ==> s.status[s.tail] == Empty && s.buffers[s.tail] == None)
  }

  /** How it ends: the buffer is in the slot at `tail`, or freed. */
  function Returned(s: State, b: Buffer): State {
    if Succ(s.tail) == s.head then s.(hands := s.hands - {b}, freed := s.freed + {b})
    else s.(buffers := s.buffers[s.tail := Some(b)], status := s.status[s.tail := Available],
            tail := Succ(s.tail), hands := s.hands - {b})
  }

  /** The whole state when the return that began in `s` stands at `pc`. */
  function ReturnStage(s: State, p: nat, b: Buffer, pc: Pc): State
    requires p < |s.threads|
  {
    var taken := s.(hands := s.hands - {b});
    var reserved := taken.(tail := Succ(s.tail));
    match pc
    case Idle => Returned(s, b)
    case StoreClaim(_, _) => Goto(reserved, p, pc)
    case StorePut(_, _) => Goto(reserved.(status := s.status[s.tail := Storing]), p, pc)
    case StorePublish(_) =>
      Goto(reserved.(status := s.status[s.tail := Storing], buffers := s.buffers[s.tail := Some(b)]), p, pc)
    case _ => Goto(taken, p, pc)
  }

  /** The stages that it can stand at. */
  predicate ReturnPc(s: State, b: Buffer, pc: Pc) {
    || pc == Idle
    || pc == ReturnLoadTail(b)
    || pc == ReturnLoadHead(b, s.tail)
    || (if Succ(s.tail) == s.head then pc == ReturnDrop(b)
        else pc in {ReturnCas(b, s.tail), StoreClaim(b, s.tail), StorePut(b, s.tail), StorePublish(s.tail)})
  }

  predicate Returning(s: State, p: nat, b: Buffer, m: State) {
    && CanReturn(s, p, b)
    && p < |m.threads|
    && ReturnPc(s, b, m.threads[p])
    && m == ReturnStage(s, p, b, m.threads[p])
  }

  /** One step, or one spurious failure, goes from stage to stage, and no stage has to wait. */
  lemma {:induction false} ReturnMoves(s: State, p: nat, b: Buffer, m: State, a: Action)
    requires Returning(s, p, b, m) && Enabled(m, a) && (a == Step(p) || a == SpuriousFail(p))
    ensures Returning(s, p, b, Apply(m, a))
  {
    var m' := Apply(m, a);
    assert m'.threads == s.threads[p := m'.threads[p]];
    assert m' == ReturnStage(s, p, b, m'.threads[p]);
  }

  lemma {:induction false} ReturnStandsOrEnds(s: State, p: nat, b: Buffer, m: State)
    requires Returning(s, p, b, m)
    ensures if m.threads[p] == Idle then m == Returned(s, b) else Progresses(m, p)
  {
  }

  lemma {:induction false} ReturningRun(s: State, p: nat, b: Buffer, m: State, run: seq<Action>)
    requires Returning(s, p, b, m) && IsRun(m, run) && Alone(run, p)
    ensures Returning(s, p, b, Exec(m, run))
    decreases |run|
  {
    if run != [] {
      ReturnMoves(s, p, b, m, run[0]);
      ReturningRun(s, p, b, Apply(m, run[0]), run[1..]);
    }
  }

  /**
   Every run of a return alone: once it has ended, its buffer is in the slot at `tail`, which has
   advanced, or is freed if there was no room, and nothing else has changed. Until then it can
   always take a step that is not a spin.
   */
  lemma {:induction false} SoloReturn(s: State, p: nat, b: Buffer, run: seq<Action>)
    requires CanReturn(s, p, b) && Alone(run, p) && IsRun(s, [StartReturn(p, b)] + run)
    ensures var m := Exec(s, [StartReturn(p, b)] + run);
      p < |m.threads| && if m.threads[p] == Idle then m == Returned(s, b) else Progresses(m, p)
  {
    var m := Apply(s, StartReturn(p, b));
    assert ([StartReturn(p, b)] + run)[1..] == run;
    assert Returning(s, p, b, m);
    ReturningRun(s, p, b, m, run);
    ReturnStandsOrEnds(s, p, b, Exec(m, run));
  }

  // Obtaining a buffer.

  /** The obtain by `p`, begun in `s`, finds an available buffer, or an empty window. */
  predicate CanObtain(s: State, p: nat) {
    && Enabled(s, StartObtain(p))
    && (s.head != s.tail ==> s.status[s.head] == Available && s.buffers[s.head].Some?)
  }

  /** How it ends: the buffer in the slot at `head` is in the caller's hands, or a fresh one is. */
  function Obtained(s: State): State
    requires s.head != s.tail ==> s.buffers[s.head].Some?
  {
    if s.head == s.tail then s.(hands := s.hands + {s.next}, next := s.next + 1)
    else s.(buffers := s.buffers[s.head := None], status := s.status[s.head := Empty],
            head := Succ(s.head), hands := s.hands + {s.buffers[s.head].value})
  }

  /** The whole state when the obtain that began in `s` stands at `pc`. */
  function ObtainStage(s: State, p: nat, pc: Pc): State
    requires CanObtain(s, p)
  {
    var reserved := s.(head := Succ(s.head));
    match pc
    case Idle => Obtained(s)
    case LoadClaim(_) => Goto(reserved, p, pc)
    case LoadTake(_) => Goto(reserved.(status := s.status[s.head := Loading]), p, pc)
    case LoadRelease(_, _) =>
      Goto(reserved.(status := s.status[s.head := Loading], buffers := s.buffers[s.head := None]), p, pc)
    case ObtainDone(Some(_)) =>
      Goto(reserved.(status := s.status[s.head := Empty], buffers := s.buffers[s.head := None]), p, pc)
    case _ => Goto(s, p, pc)
  }

  predicate ObtainPc(s: State, pc: Pc) {
    || pc == Idle
    || pc == ObtainLoadHead
    || pc == ObtainLoadTail(s.head)
    || (if s.head == s.tail then pc == ObtainDone(None)
        else pc in {ObtainCas(s.head), LoadClaim(s.head), LoadTake(s.head),
                    LoadRelease(s.head, s.buffers[s.head]), ObtainDone(s.buffers[s.head])})
  }

  predicate Obtaining(s: State, p: nat, m: State) {
    && CanObtain(s, p)
    && p < |m.threads|
    && ObtainPc(s, m.threads[p])
    && m == ObtainStage(s, p, m.threads[p])
  }

  lemma {:induction false} ObtainMoves(s: State, p: nat, m: State, a: Action)
    requires Obtaining(s, p, m) && Enabled(m, a) && (a == Step(p) || a == SpuriousFail(p))
    ensures Obtaining(s, p, Apply(m, a))
  {
    var m' := Apply(m, a);
    assert m'.threads == s.threads[p := m'.threads[p]];
    assert m' == ObtainStage(s, p, m'.threads[p]);
  }

  lemma {:induction false} ObtainStandsOrEnds(s: State, p: nat, m: State)
    requires Obtaining(s, p, m)
    ensures if m.threads[p] == Idle then m == Obtained(s) else Progresses(m, p)
  {
  }

  lemma {:induction false} ObtainingRun(s: State, p: nat, m: State, run: seq<Action>)
    requires Obtaining(s, p, m) && IsRun(m, run) && Alone(run, p)
    ensures Obtaining(s, p, Exec(m, run))
    decreases |run|
  {
    if run != [] {
      ObtainMoves(s, p, m, run[0]);
      ObtainingRun(s, p, Apply(m, run[0]), run[1..]);
    }
  }

  /**
   Every run of an obtain alone: once it has ended, the buffer that was in the slot at `head` is in
   the caller's hands and `head` has advanced, or a fresh buffer is if the indices were equal, and
   nothing else has changed. Until then it can always take a step that is not a spin.
   */
  lemma {:induction false} SoloObtain(s: State, p: nat, run: seq<Action>)
    requires CanObtain(s, p) && Alone(run, p) && IsRun(s, [StartObtain(p)] + run)
    ensures var m := Exec(s, [StartObtain(p)] + run);
      p < |m.threads| && if m.threads[p] == Idle then m == Obtained(s) else Progresses(m, p)
  {
    var m := Apply(s, StartObtain(p));
    assert ([StartObtain(p)] + run)[1..] == run;
    assert Obtaining(s, p, m);
    ObtainingRun(s, p, m, run);
    ObtainStandsOrEnds(s, p, Exec(m, run));
  }
}
