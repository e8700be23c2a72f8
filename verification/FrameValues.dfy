/**
 What frames look like to those who use them: each has its bytes and its size, and nothing else
 matters. A frame's bytes follow its buffer from owner to owner, and only writes through the owner
 of the moment change them.
 */
module FrameValues {
  import opened Wrappers
  import opened Net

  const MAX_BUFFER_SIZE: nat := 16 * 1024

  /** A frame as a value; one that was moved from has no bytes. */
  datatype Value = Value(bytes: Option<seq<Byte>>, size: nat)

  /** One event in the life of the frames; a frame is named by its place in the list of live frames. */
  datatype Op =
    | New(size: nat)
    | Adopt(bytes: Option<seq<Byte>>, size: nat)    // a frame made of a caller's buffer, which may be null
    | Move(i: nat)
    | Assign(i: nat, j: nat)
    | Kill(i: nat)
    | Resize(i: nat, size: nat)
    | Copy(i: nat)
    | Poke(i: nat, k: nat, v: Byte)

  /** Whether an event finds the frames and bytes it needs; if not it is skipped. */
  predicate Applies(before: seq<Value>, op: Op) {
    match op
    case New(_) => true
    case Adopt(bytes, _) => bytes.Some? ==> |bytes.value| == MAX_BUFFER_SIZE
    case Move(i) => i < |before|
    case Assign(i, j) => i < |before| && j < |before|
    case Kill(i) => i < |before|
    case Resize(i, _) => i < |before|
    case Copy(i) => i < |before| && before[i].bytes.Some? && before[i].size <= |before[i].bytes.value|
    case Poke(i, k, _) => i < |before| && before[i].bytes.Some? && k < |before[i].bytes.value|
  }

  /** What an event does to the frames. The bytes of a buffer that is not written yet are arbitrary. */
  predicate OpStep(before: seq<Value>, op: Op, after: seq<Value>) {
    if !Applies(before, op) then after == before
    else
      match op
      case New(size) => Joined(before, after) && after[|before|].size == size
      case Adopt(bytes, size) => after == before + [Value(bytes, size)]
      case Move(i) => after == before[i := before[i].(bytes := None)] + [before[i]]
      case Assign(i, j) => after == if i == j then before else before[i := before[j]][j := before[j].(bytes := None)]
      case Kill(i) => after == before[..i] + before[i + 1..]
      case Resize(i, size) =>
        after == before[i := before[i].(size := if size < MAX_BUFFER_SIZE then size else MAX_BUFFER_SIZE)]
      case Copy(i) =>
        var size := before[i].size;
        && Joined(before, after)
        && after[|before|].size == size <= MAX_BUFFER_SIZE
        && after[|before|].bytes.value[..size] == before[i].bytes.value[..size]
      case Poke(i, k, v) => after == before[i := before[i].(bytes := Some(before[i].bytes.value[k := v]))]
  }

  /** A frame with a buffer of its own joined the live ones. */
  predicate Joined(before: seq<Value>, after: seq<Value>) {
    && |after| == |before| + 1
    && after[..|before|] == before
    && after[|before|].bytes.Some? && |after[|before|].bytes.value| == MAX_BUFFER_SIZE
  }

  /** The frames before and after each event. */
  predicate Trace(values: seq<seq<Value>>, script: seq<Op>) {
    |values| == |script| + 1 && forall k :: 0 <= k < |script| ==> OpStep(values[k], script[k], values[k + 1])
  }

  lemma {:induction false} TraceNext(values: seq<seq<Value>>, script: seq<Op>, op: Op, after: seq<Value>)
    requires Trace(values, script) && OpStep(values[|script|], op, after)
    ensures Trace(values + [after], script + [op])
  {
  }

  /** Which frame owns, after the event, the buffer of the frame at `j`; None if it lost its last owner. */
  function Owner(before: seq<Value>, op: Op, j: nat): Option<nat> {
    if !Applies(before, op) then Some(j)
    else
      match op
      case Move(i) => Some(if i == j then |before| else j)
      case Assign(i, k) => if i == k then Some(j) else if j == k then Some(i) else if j == i then None else Some(j)
      case Kill(i) => if i == j then None else Some(if i < j then j - 1 else j)
      case _ => Some(j)
  }

  /** What the event writes into the buffer of the frame at `j`, if that held `bytes` before. */
  function Written(op: Op, j: nat, bytes: seq<Byte>): seq<Byte> {
    if op.Poke? && op.i == j && op.k < |bytes| then bytes[op.k := op.v] else bytes
  }

  lemma {:induction false} OpKeepsBytes(before: seq<Value>, op: Op, after: seq<Value>, j: nat)
    requires OpStep(before, op, after) && j < |before| && before[j].bytes.Some? && Owner(before, op, j).Some?
    ensures var k := Owner(before, op, j).value;
      k < |after| && after[k].bytes == Some(Written(op, j, before[j].bytes.value))
  {
    if Applies(before, op) && (op.New? || op.Copy?) {
      assert after[..|before|][j] == before[j];
    }
  }

  /** The owner, after all events, of the buffer that the frame at `j` owned at first. */
  function LastOwner(values: seq<seq<Value>>, script: seq<Op>, j: nat): Option<nat>
    requires |values| == |script| + 1
    decreases |script|
  {
    if script == [] then Some(j)
    else match Owner(values[0], script[0], j)
         case None => None
         case Some(k) => LastOwner(values[1..], script[1..], k)
  }

  /** The bytes of that buffer after all that was written through its owners. */
  function LastBytes(values: seq<seq<Value>>, script: seq<Op>, j: nat, bytes: seq<Byte>): seq<Byte>
    requires |values| == |script| + 1
    decreases |script|
  {
    if script == [] then bytes
    else match Owner(values[0], script[0], j)
         case None => bytes
         case Some(k) => LastBytes(values[1..], script[1..], k, Written(script[0], j, bytes))
  }

  lemma {:induction false} TraceRest(values: seq<seq<Value>>, script: seq<Op>)
    requires Trace(values, script) && script != []
    ensures OpStep(values[0], script[0], values[1]) && Trace(values[1..], script[1..])
  {
    forall k | 0 <= k < |script[1..]|
      ensures OpStep(values[1..][k], script[1..][k], values[1..][k + 1])
    {
      assert OpStep(values[k + 1], script[k + 1], values[k + 2]);
    }
  }

  /**
   A buffer that still has an owner after any sequence of events holds the bytes it held at first,
   changed by nothing but the writes through the frames that owned it.
   */
  lemma {:induction false} BytesFollowOwner(values: seq<seq<Value>>, script: seq<Op>, j: nat)
    requires Trace(values, script) && j < |values[0]| && values[0][j].bytes.Some?
    requires LastOwner(values, script, j).Some?
    ensures var k, last := LastOwner(values, script, j).value, values[|script|];
      k < |last| && last[k].bytes == Some(LastBytes(values, script, j, values[0][j].bytes.value))
    decreases |script|
  {
    if script != [] {
      TraceRest(values, script);
      OpKeepsBytes(values[0], script[0], values[1], j);
      BytesFollowOwner(values[1..], script[1..], Owner(values[0], script[0], j).value);
    }
  }

  /** No event writes through the frame that then owns the buffer that the frame at `j` owned at first. */
  predicate Unwritten(values: seq<seq<Value>>, script: seq<Op>, j: nat)
    requires |values| == |script| + 1
    decreases |script|
  {
    script == []
    || (&& !(script[0].Poke? && script[0].i == j)
        && (match Owner(values[0], script[0], j)
            case None => true
            case Some(k) => Unwritten(values[1..], script[1..], k)))
  }

  lemma {:induction false} UnwrittenBytes(values: seq<seq<Value>>, script: seq<Op>, j: nat, bytes: seq<Byte>)
    requires |values| == |script| + 1 && Unwritten(values, script, j)
    ensures LastBytes(values, script, j, bytes) == bytes
    decreases |script|
  {
    if script != [] && Owner(values[0], script[0], j).Some? {
      UnwrittenBytes(values[1..], script[1..], Owner(values[0], script[0], j).value, bytes);
    }
  }

  /**
   A clone that is not written through keeps the bytes that the original had when it was copied, in
   whatever frame its buffer ends up, and whatever happens to the original.
   */
  lemma {:induction false} CloneKeepsBytes(values: seq<seq<Value>>, script: seq<Op>)
    requires script != [] && Trace(values, script) && script[0].Copy? && Applies(values[0], script[0])
    requires Unwritten(values[1..], script[1..], |values[0]|)
    requires LastOwner(values[1..], script[1..], |values[0]|).Some?
    ensures var original, last := values[0][script[0].i], values[|script|];
      var k := LastOwner(values[1..], script[1..], |values[0]|).value;
      && k < |last| && last[k].bytes.Some?
      && original.size <= |last[k].bytes.value|
      && last[k].bytes.value[..original.size] == original.bytes.value[..original.size]
  {
    TraceRest(values, script);
    BytesFollowOwner(values[1..], script[1..], |values[0]|);
    UnwrittenBytes(values[1..], script[1..], |values[0]|, values[1][|values[0]|].bytes.value);
  }

  // Which frames can be cloned.

  /** Buffers have their full length. */
  predicate Full(v: Value) {
    v.bytes.Some? ==> |v.bytes.value| == MAX_BUFFER_SIZE
  }

  /** And a frame with a buffer is not larger than it. */
  predicate Sound(v: Value) {
    Full(v) && (v.bytes.Some? ==> v.size <= MAX_BUFFER_SIZE)
  }

  ghost predicate AllFull(frames: seq<Value>) {
    forall i :: 0 <= i < |frames| ==> Full(frames[i])
  }

  ghost predicate AllSound(frames: seq<Value>) {
    forall i :: 0 <= i < |frames| ==> Sound(frames[i])
  }

  /** Every frame that was not moved from can be cloned: the copying stays within the buffers. */
  ghost predicate AllCloneable(frames: seq<Value>) {
    forall i :: 0 <= i < |frames| && frames[i].bytes.Some? ==> Applies(frames, Copy(i))
  }

  lemma {:induction false} CloneableIsSound(frames: seq<Value>)
    requires AllFull(frames)
    ensures AllCloneable(frames) <==> AllSound(frames)
  {
    if AllCloneable(frames) {
      forall i | 0 <= i < |frames|
        ensures Sound(frames[i])
      {
        assert Full(frames[i]);
      }
    }
  }

  /** The constructors that take a size are given one that fits the buffer. */
  predicate SizeFits(op: Op) {
    match op
    case New(size) => size <= 16384
    case Adopt(bytes, size) => bytes.Some? && |bytes.value| == 16384 ==> size <= 16384
    case _ => true
  }

  lemma {:induction false} OldFrames(before: seq<Value>, after: seq<Value>)
    requires Joined(before, after)
    ensures forall i :: 0 <= i < |before| ==> after[i] == before[i]
  {
    assert forall i :: 0 <= i < |before| ==> after[..|before|][i] == after[i];
  }

  /** A frame just built by the sized constructor can be cloned if and only if its size fits the buffer. */
  lemma {:induction false} NewCloneableExactly(before: seq<Value>, size: nat, after: seq<Value>)
    requires OpStep(before, New(size), after)
    ensures Applies(after, Copy(|before|)) <==> size <= 16384
  {
  }

  /** An event keeps the frames sound exactly if the size it brings in fits the buffer. */
  lemma {:induction false} SoundStep(before: seq<Value>, op: Op, after: seq<Value>)
    requires OpStep(before, op, after) && AllSound(before)
    ensures AllSound(after) <==> SizeFits(op)
  {
    if op.New? || (op.Copy? && Applies(before, op)) {
      OldFrames(before, after);
      assert Sound(after[|before|]) <==> SizeFits(op);
    } else if op.Adopt? && Applies(before, op) {
      assert after[|before|] == Value(op.bytes, op.size);
    }
  }

  lemma {:induction false} FullStep(before: seq<Value>, op: Op, after: seq<Value>)
    requires OpStep(before, op, after) && AllFull(before)
    ensures AllFull(after)
  {
    if op.New? || (op.Copy? && Applies(before, op)) {
      OldFrames(before, after);
    }
  }

  lemma {:induction false} FullTrace(values: seq<seq<Value>>, script: seq<Op>)
    requires Trace(values, script) && AllFull(values[0])
    ensures forall k :: 0 <= k <= |script| ==> AllFull(values[k])
    decreases |script|
  {
    if script != [] {
      TraceRest(values, script);
      FullStep(values[0], script[0], values[1]);
      var later := values[1..];
      FullTrace(later, script[1..]);
      assert forall k {:trigger values[k]} :: 1 <= k <= |script| ==> values[k] == later[k - 1];
    }
  }

  lemma {:induction false} SoundTrace(values: seq<seq<Value>>, script: seq<Op>)
    requires Trace(values, script) && AllSound(values[0])
    ensures (forall k :: 0 <= k <= |script| ==> AllSound(values[k]))
       <==> (forall k :: 0 <= k < |script| ==> SizeFits(script[k]))
    decreases |script|
  {
    if script != [] {
      TraceRest(values, script);
      SoundStep(values[0], script[0], values[1]);
      var later, rest := values[1..], script[1..];
      assert forall k {:trigger values[k]} :: 1 <= k <= |script| ==> values[k] == later[k - 1];
      assert forall k {:trigger later[k]} :: 0 <= k <= |rest| ==> later[k] == values[k + 1];
      assert forall k {:trigger rest[k]} :: 0 <= k < |rest| ==> rest[k] == script[k + 1];
      assert forall k {:trigger script[k]} :: 1 <= k < |script| ==> script[k] == rest[k - 1];
      if SizeFits(script[0]) {
        SoundTrace(later, rest);
      }
    }
  }

  /**
   Cloning is defined at every moment, for every frame that was not moved from, exactly if each size
   given to a constructor together with a buffer fits the buffer. `SetSize` and the moves see to it
   themselves; the constructors do not.
   */
  lemma {:induction false} CloningDefinedExactly(values: seq<seq<Value>>, script: seq<Op>)
    requires Trace(values, script) && values[0] == []
    ensures (forall k :: 0 <= k <= |script| ==> AllCloneable(values[k]))
       <==> (forall k :: 0 <= k < |script| ==> SizeFits(script[k]))
  {
    FullTrace(values, script);
    SoundTrace(values, script);
    forall k | 0 <= k <= |script|
      ensures AllCloneable(values[k]) <==> AllSound(values[k])
    {
      CloneableIsSound(values[k]);
    }
  }
}
