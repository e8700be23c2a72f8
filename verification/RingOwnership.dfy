/**
 Slot ownership and buffer conservation: what holds of the ring in every interleaving, whatever
 the indices do. The status word alone makes the hand-over of a slot exclusive.
 */
module RingOwnership {
  import opened Wrappers
  import opened Ring

  /** The slot a thread holds: it has claimed the slot and not yet released it. */
  function OwnedSlot(pc: Pc): Option<Index> {
    match pc
    case LoadTake(h) => Some(h)
    case LoadRelease(h, _) => Some(h)
    case StorePut(_, t) => Some(t)
    case StorePublish(t) => Some(t)
    case _ => None
  }

  /** What the holder of a slot may rely on. */
  predicate HolderOk(s: State, pc: Pc) {
    match pc
    case LoadTake(h) => s.status[h] == Loading && s.buffers[h].Some?
    case LoadRelease(h, taken) => s.status[h] == Loading && s.buffers[h].None? && taken.Some?
    case StorePut(_, t) => s.status[t] == Storing && s.buffers[t].None?
    case StorePublish(t) => s.status[t] == Storing && s.buffers[t].Some?
    case _ => true
  }

  ghost predicate HeldBySomeone(s: State, i: Index) {
    exists p :: 0 <= p < |s.threads| && OwnedSlot(s.threads[p]) == Some(i)
  }

  predicate SlotIdleOk(s: State, i: Index) {
    && (s.status[i] == Empty ==> s.buffers[i].None?)
    && (s.status[i] == Available ==> s.buffers[i].Some?)
  }

  predicate InUse(s: State, i: Index) {
    s.status[i] == Loading || s.status[i] == Storing
  }

  ghost predicate Ownership(s: State) {
    && !s.aborted
    && (forall p :: 0 <= p < |s.threads| ==> HolderOk(s, s.threads[p]))
    && (forall p, q :: 0 <= p < |s.threads| && 0 <= q < |s.threads| && OwnedSlot(s.threads[p]).Some?
                    && OwnedSlot(s.threads[p]) == OwnedSlot(s.threads[q])
          ==> p == q)
    && (forall i: Index :: SlotIdleOk(s, i))
    && (forall i: Index :: InUse(s, i) ==> HeldBySomeone(s, i))
  }

  lemma {:induction false} OwnershipInit(threads: nat)
    ensures Ownership(Init(threads))
  {
  }

  /** The slots other than `i` look the same in both states. */
  predicate SameElsewhere(s: State, s': State, i: Index) {
    s'.status == s.status[i := s'.status[i]] && s'.buffers == s.buffers[i := s'.buffers[i]]
  }

  /**
   The frame of one step: only thread `p` moves and only slot `i` changes, no other thread holds
   `i`, and afterwards `p` and slot `i` are in order. Then everything is in order.
   */
  lemma {:induction false} OwnershipFrame(s: State, s': State, p: nat, i: Index)
    requires Ownership(s) && p < |s.threads| && !s'.aborted
    requires |s'.threads| == |s.threads| && s'.threads == s.threads[p := s'.threads[p]]
    requires SameElsewhere(s, s', i)
    requires OwnedSlot(s.threads[p]) in {None, Some(i)} && OwnedSlot(s'.threads[p]) in {None, Some(i)}
    requires InUse(s, i) ==> OwnedSlot(s.threads[p]) == Some(i)
    requires InUse(s', i) ==> OwnedSlot(s'.threads[p]) == Some(i)
    requires HolderOk(s', s'.threads[p]) && SlotIdleOk(s', i)
    ensures Ownership(s')
  {
    forall q | 0 <= q < |s.threads| && q != p
      ensures OwnedSlot(s'.threads[q]) != Some(i) && HolderOk(s', s'.threads[q])
    {
      assert HolderOk(s, s.threads[q]);
    }
    forall j: Index
      ensures SlotIdleOk(s', j)
      ensures InUse(s', j) ==> HeldBySomeone(s', j)
    {
      if j != i {
        assert SlotIdleOk(s, j) && InUse(s', j) == InUse(s, j);
        if InUse(s, j) {
          assert HeldBySomeone(s, j);
          var q :| 0 <= q < |s.threads| && OwnedSlot(s.threads[q]) == Some(j);
          assert OwnedSlot(s'.threads[q]) == Some(j);
        }
      } else if InUse(s', i) {
        assert OwnedSlot(s'.threads[p]) == Some(i);
      }
    }
  }

  /** A step that leaves the slots alone, taken by a thread that holds none before or after. */
  lemma {:induction false} OwnershipSilent(s: State, s': State, p: nat)
    requires Ownership(s) && p < |s.threads| && !s'.aborted
    requires |s'.threads| == |s.threads| && s'.threads == s.threads[p := s'.threads[p]]
    requires s'.status == s.status && s'.buffers == s.buffers
    requires OwnedSlot(s.threads[p]) == None == OwnedSlot(s'.threads[p])
    ensures Ownership(s')
  {
    forall q | 0 <= q < |s.threads|
      ensures HolderOk(s', s'.threads[q]) && OwnedSlot(s'.threads[q]) == OwnedSlot(s.threads[q])
    {
      assert HolderOk(s, s.threads[q]);
    }
    forall j: Index
      ensures SlotIdleOk(s', j)
      ensures InUse(s', j) ==> HeldBySomeone(s', j)
    {
      assert SlotIdleOk(s, j);
      if InUse(s', j) {
        assert HeldBySomeone(s, j);
        var q :| 0 <= q < |s.threads| && OwnedSlot(s.threads[q]) == Some(j);
        assert OwnedSlot(s'.threads[q]) == Some(j);
      }
    }
  }

  /** A claim: it succeeds only on a slot that nobody holds. */
  lemma {:induction false} OwnershipClaim(s: State, p: nat)
    requires Ownership(s) && Enabled(s, Step(p)) && (s.threads[p].LoadClaim? || s.threads[p].StoreClaim?)
    ensures Ownership(StepThread(s, p))
  {
    var s' := StepThread(s, p);
    var i := if s.threads[p].LoadClaim? then s.threads[p].h else s.threads[p].t;
    assert SlotIdleOk(s, i);
    if !Spins(s, s.threads[p]) {
      OwnershipFrame(s, s', p, i);
    }
  }

  /** A step of a thread that holds a slot. */
  lemma {:induction false} OwnershipHolder(s: State, p: nat)
    requires Ownership(s) && Enabled(s, Step(p)) && OwnedSlot(s.threads[p]).Some?
    ensures Ownership(StepThread(s, p))
  {
    assert HolderOk(s, s.threads[p]);
    OwnershipFrame(s, StepThread(s, p), p, OwnedSlot(s.threads[p]).value);
  }

  lemma {:induction false} OwnershipThread(s: State, p: nat)
    requires Ownership(s) && Enabled(s, Step(p))
    ensures Ownership(StepThread(s, p))
  {
    if s.threads[p].LoadClaim? || s.threads[p].StoreClaim? {
      OwnershipClaim(s, p);
    } else if OwnedSlot(s.threads[p]).Some? {
      OwnershipHolder(s, p);
    } else {
      OwnershipSilent(s, StepThread(s, p), p);
    }
  }

  lemma {:induction false} OwnershipStep(s: State, a: Action)
    requires Ownership(s) && Enabled(s, a)
    ensures Ownership(Apply(s, a))
  {
    var s' := Apply(s, a);
    match a {
      case Step(p) => OwnershipThread(s, p);
      case StartObtain(p) => OwnershipSilent(s, s', p);
      case StartReturn(p, _) => OwnershipSilent(s, s', p);
      case SpuriousFail(p) => OwnershipSilent(s, s', p);
      case _ => OwnershipBooks(s, s');
    }
  }

  /** Ownership does not look at the books. */
  lemma {:induction false} OwnershipBooks(s: State, s': State)
    requires Ownership(s) && !s'.aborted
    requires s'.threads == s.threads && s'.status == s.status && s'.buffers == s.buffers
    ensures Ownership(s')
  {
    forall p | 0 <= p < |s.threads|
      ensures HolderOk(s', s'.threads[p])
    {
      assert HolderOk(s, s.threads[p]);
    }
    forall j: Index
      ensures SlotIdleOk(s', j)
      ensures InUse(s', j) ==> HeldBySomeone(s', j)
    {
      assert SlotIdleOk(s, j);
      assert InUse(s, j) ==> HeldBySomeone(s, j);
    }
  }

  lemma {:induction false} OwnershipRun(s: State, run: seq<Action>)
    requires Ownership(s) && IsRun(s, run)
    ensures Ownership(Exec(s, run))
    decreases |run|
  {
    if run != [] {
      OwnershipStep(s, run[0]);
      OwnershipRun(Apply(s, run[0]), run[1..]);
    }
  }

  /**
   Slot safety in every interleaving of any number of threads: the CHECK at the store never fails,
   no two threads stand between claiming and releasing the same slot, an empty slot holds no
   buffer and an available one does, and a loader never takes null out of a slot it claimed.
   */
  lemma {:induction false} SlotSafety(threads: nat, run: seq<Action>)
    requires IsRun(Init(threads), run)
    ensures var s := Exec(Init(threads), run);
      && !s.aborted
      && (forall p, q :: 0 <= p < q < |s.threads| && OwnedSlot(s.threads[p]).Some?
            ==> OwnedSlot(s.threads[p]) != OwnedSlot(s.threads[q]))
      && (forall i: Index :: s.status[i] == Empty ==> s.buffers[i] == None)
      && (forall i: Index :: s.status[i] == Available ==> s.buffers[i] != None)
      && (forall p :: 0 <= p < |s.threads| && s.threads[p].LoadRelease? ==> s.threads[p].taken != None)
      && (forall p :: 0 <= p < |s.threads| && s.threads[p].StorePut? ==> s.buffers[s.threads[p].t] == None)
  {
    OwnershipInit(threads);
    OwnershipRun(Init(threads), run);
    var s := Exec(Init(threads), run);
    forall p | 0 <= p < |s.threads|
      ensures s.threads[p].LoadRelease? ==> s.threads[p].taken != None
      ensures s.threads[p].StorePut? ==> s.buffers[s.threads[p].t] == None
    {
      assert HolderOk(s, s.threads[p]);
    }
    forall i: Index
      ensures s.status[i] == Empty ==> s.buffers[i] == None
      ensures s.status[i] == Available ==> s.buffers[i] != None
    {
      assert SlotIdleOk(s, i);
    }
  }
}
