/**
 The buffer pool used by a single thread: the ring with its wrap-around indices and its status
 array is a FIFO queue of capacity SLOTS - 1.
 */
module SequentialPool {
  import opened Wrappers
  import opened Ring

  /** The number of steps from one index forward to another, going round. */
  function Steps(from: Index, to: Index): nat {
    if from <= to then to - from else to - from + SLOTS
  }

  /** The index `k` steps on. */
  function Forward(from: Index, k: nat): Index
    requires k < SLOTS
  {
    if from + k < SLOTS then from + k else from + k - SLOTS
  }

  /** Whether slot `i` lies in the stretch from `head` up to `tail`, going round. */
  predicate InStretch(head: Index, tail: Index, i: Index) {
    Steps(head, i) < Steps(head, tail)
  }

  /** The successor that the source computes with a remainder. */
  lemma {:induction false} SuccForward(i: Index)
    ensures Succ(i) == Forward(i, 1)
  {
  }

  predicate SlotOk<T>(bs: seq<Option<T>>, ss: seq<Status>, head: Index, tail: Index, i: Index)
    requires |bs| == SLOTS == |ss|
  {
    if InStretch(head, tail, i) then ss[i] == Available && bs[i].Some? else ss[i] == Empty && bs[i].None?
  }

  /** At rest, the slots of the stretch are available and the others are empty. */
  ghost predicate AtRest<T>(bs: seq<Option<T>>, ss: seq<Status>, head: Index, tail: Index) {
    |bs| == SLOTS == |ss| && forall i: Index :: SlotOk(bs, ss, head, tail, i)
  }

  /** The queue a ring at rest stands for, the oldest buffer first. */
  ghost function Queue<T>(bs: seq<Option<T>>, ss: seq<Status>, head: Index, tail: Index): seq<T>
    requires AtRest(bs, ss, head, tail)
  {
    seq(Steps(head, tail), k requires 0 <= k < Steps(head, tail) => Entry(bs, ss, head, tail, k))
  }

  ghost function Entry<T>(bs: seq<Option<T>>, ss: seq<Status>, head: Index, tail: Index, k: nat): T
    requires AtRest(bs, ss, head, tail) && k < Steps(head, tail)
  {
    assert SlotOk(bs, ss, head, tail, Forward(head, k));
    bs[Forward(head, k)].value
  }

  /** Taking the buffer at `head` and advancing `head` removes the oldest element. */
  lemma {:induction false} PopOldest<T>(bs: seq<Option<T>>, ss: seq<Status>, head: Index, tail: Index)
    requires AtRest(bs, ss, head, tail) && head != tail
    ensures ss[head] == Available && bs[head].Some?
    ensures AtRest(bs[head := None], ss[head := Empty], Succ(head), tail)
    ensures Queue(bs, ss, head, tail)
         == [bs[head].value] + Queue(bs[head := None], ss[head := Empty], Succ(head), tail)
  {
    var n := Steps(head, tail);
    SuccForward(head);
    assert SlotOk(bs, ss, head, tail, head);
    assert Steps(Succ(head), tail) == n - 1;
    var bs', ss', head' := bs[head := None], ss[head := Empty], Succ(head);
    forall i: Index
      ensures SlotOk(bs', ss', head', tail, i)
    {
      assert SlotOk(bs, ss, head, tail, i);
      PopStretch(head, tail, i);
    }
    var q, q' := Queue(bs, ss, head, tail), Queue(bs', ss', head', tail);
    forall k | 0 <= k < n - 1
      ensures q'[k] == q[k + 1]
    {
      assert Forward(head', k) == Forward(head, k + 1) != head;
    }
  }

  lemma {:induction false} PopStretch(head: Index, tail: Index, i: Index)
    requires head != tail
    ensures InStretch(Succ(head), tail, i) <==> InStretch(head, tail, i) && i != head
  {
    SuccForward(head);
  }

  /** Storing a buffer at `tail` and advancing `tail` appends it. */
  lemma {:induction false} PushNewest<T>(bs: seq<Option<T>>, ss: seq<Status>, head: Index, tail: Index, b: T)
    requires AtRest(bs, ss, head, tail) && Succ(tail) != head
    ensures ss[tail] == Empty && bs[tail].None?
    ensures AtRest(bs[tail := Some(b)], ss[tail := Available], head, Succ(tail))
    ensures Queue(bs[tail := Some(b)], ss[tail := Available], head, Succ(tail)) == Queue(bs, ss, head, tail) + [b]
  {
    var n := Steps(head, tail);
    SuccForward(tail);
    assert SlotOk(bs, ss, head, tail, tail);
    assert n < SLOTS - 1 && Steps(head, Succ(tail)) == n + 1 && Forward(head, n) == tail;
    var bs', ss', tail' := bs[tail := Some(b)], ss[tail := Available], Succ(tail);
    forall i: Index
      ensures SlotOk(bs', ss', head, tail', i)
    {
      assert SlotOk(bs, ss, head, tail, i);
      assert InStretch(head, tail', i) <==> InStretch(head, tail, i) || i == tail;
    }
    var q, q' := Queue(bs, ss, head, tail), Queue(bs', ss', head, tail');
    forall k | 0 <= k < n
      ensures q'[k] == q[k]
    {
      assert Forward(head, k) != tail;
    }
  }

  /** A queue at rest is full exactly when one more step of `tail` would meet `head`. */
  lemma {:induction false} FullMeansMeeting(head: Index, tail: Index)
    ensures Steps(head, tail) == SLOTS - 1 <==> Succ(tail) == head
    ensures Steps(head, tail) == 0 <==> tail == head
  {
    SuccForward(tail);
  }

  /**
   The pool object. `spurious` is what the environment has left of spurious failures: a weak
   compare-exchange may fail although the value matches, but not for ever.
   */
  class BufferPoolImpl<T> {
    const buffers: array<Option<T>>
    const status: array<Status>
    var head: Index
    var tail: Index
    var spurious: nat

    ghost predicate Valid()
      reads this, buffers, status
    {
      AtRest(buffers[..], status[..], head, tail)
    }

    ghost function Contents(): seq<T>
      reads this, buffers, status
      requires Valid()
    {
      Queue(buffers[..], status[..], head, tail)
    }

    constructor (spurious: nat)
      ensures Valid() && Contents() == []
      ensures fresh(buffers) && fresh(status)
    {
      buffers := new Option<T>[SLOTS](_ => None);
      status := new Status[SLOTS](_ => Empty);
      head, tail := 0, 0;
      this.spurious := spurious;
    }

    /** Whether the environment makes this compare-exchange fail although the value matches. */
    method FailsSpuriously() returns (fails: bool)
      modifies `spurious
      ensures fails ==> spurious < old(spurious)
      ensures !fails ==> spurious == old(spurious)
    {
      var unlucky: bool := *;
      fails := unlucky && spurious > 0;
      if fails { spurious := spurious - 1; }
    }

    method CompareExchangeHead(expected: Index, desired: Index) returns (won: bool)
      modifies `head, `spurious
      ensures won ==> old(head) == expected && head == desired && spurious == old(spurious)
      ensures !won ==> head == old(head) && (old(head) == expected ==> spurious < old(spurious))
    {
      won := false;
      if head == expected {
        var fails := FailsSpuriously();
        if !fails {
          head, won := desired, true;
        }
      }
    }

    method CompareExchangeTail(expected: Index, desired: Index) returns (won: bool)
      modifies `tail, `spurious
      ensures won ==> old(tail) == expected && tail == desired && spurious == old(spurious)
      ensures !won ==> tail == old(tail) && (old(tail) == expected ==> spurious < old(spurious))
    {
      won := false;
      if tail == expected {
        var fails := FailsSpuriously();
        if !fails {
          tail, won := desired, true;
        }
      }
    }

    method CompareExchangeStatus(i: Index, expected: Status, desired: Status) returns (won: bool)
      requires status.Length == SLOTS
      modifies status, `spurious
      ensures won ==> old(status[i]) == expected && status[..] == old(status[..])[i := desired]
      ensures won ==> spurious == old(spurious)
      ensures !won ==> status[..] == old(status[..]) && (old(status[i]) == expected ==> spurious < old(spurious))
    {
      won := false;
      if status[i] == expected {
        var fails := FailsSpuriously();
        if !fails {
          status[i] := desired;
          won := true;
        }
      }
    }

    /** Pops the oldest buffer, or misses when the pool is empty. The claim of the slot never blocks. */
    method ObtainBuffer() returns (r: Option<T>)
      requires Valid()
      modifies this, buffers, status
      ensures Valid()
      ensures old(Contents()) == [] ==> r == None && Contents() == []
      ensures old(Contents()) != [] ==> r.Some? && old(Contents()) == [r.value] + Contents()
    {
      ghost var bs, ss, h0 := buffers[..], status[..], head;
      FullMeansMeeting(head, tail);
      while true
        invariant head == h0 && tail == old(tail) && buffers[..] == bs && status[..] == ss
        decreases spurious
      {
        var h := head;
        var t := tail;
        if h == t {
          return None;
        }
        PopOldest(bs, ss, h, t);
        var reserved := CompareExchangeHead(h, Succ(h));
        if reserved {
          var claimed := CompareExchangeStatus(h, Available, Loading);
          while !claimed
            invariant head == Succ(h) && tail == t && buffers[..] == bs
            invariant status[..] == if claimed then ss[h := Loading] else ss
            decreases spurious, !claimed
          {
            assert status[h] == status[..][h];
            claimed := CompareExchangeStatus(h, Available, Loading);
          }
          r := buffers[h];
          buffers[h] := None;
          status[h] := Empty;
          assert buffers[..] == bs[h := None] && status[..] == ss[h := Empty];
          return;
        }
      }
    }

    /** Appends the buffer, or drops it when the pool is full. The CHECK holds; the claim never blocks. */
    method ReturnBuffer(b: T)
      requires Valid()
      modifies this, buffers, status
      ensures Valid()
      ensures Contents() == if |old(Contents())| == 1023 then old(Contents()) else old(Contents()) + [b]
    {
      ghost var bs, ss, t0 := buffers[..], status[..], tail;
      FullMeansMeeting(head, tail);
      while true
        invariant tail == t0 && head == old(head) && buffers[..] == bs && status[..] == ss
        decreases spurious
      {
        var t := tail;
        var h := head;
        if Succ(t) == h {
          return;
        }
        PushNewest(bs, ss, h, t, b);
        var reserved := CompareExchangeTail(t, Succ(t));
        if reserved {
          var claimed := CompareExchangeStatus(t, Empty, Storing);
          while !claimed
            invariant head == h && tail == Succ(t) && buffers[..] == bs
            invariant status[..] == if claimed then ss[t := Storing] else ss
            decreases spurious, !claimed
          {
            assert status[t] == status[..][t];
            claimed := CompareExchangeStatus(t, Empty, Storing);
          }
          assert buffers[t] == None;
          buffers[t] := Some(b);
          status[t] := Available;
          assert buffers[..] == bs[t := Some(b)] && status[..] == ss[t := Available];
          return;
        }
      }
    }
  }
}
