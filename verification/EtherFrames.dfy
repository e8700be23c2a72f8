/**
 Ethernet frames as owners of pool buffers: construction takes a buffer from the pool, a move
 hands it on, destruction returns it. Whatever the sequence of these, no buffer has two owners.
 */
module EtherFrames {
  import opened Wrappers
  import opened Ring
  import opened SequentialPool
  import opened Sequences
  import opened Net
  import opened FrameValues

  type Block = array<Byte>
  type Pool = BufferPoolImpl<Block>

  /** A frame; `data` is null after the frame was moved from. */
  class EtherFrame {
    var data: array?<Byte>
    var size: nat

    /** The constructor that adopts a buffer. */
    constructor (data: array?<Byte>, size: nat)
      ensures this.data == data && this.size == size
    {
      this.data, this.size := data, size;
    }

    method SetSize(size: nat)
      modifies this`size
      ensures this.size <= 16384
      ensures this.size == size || (size > 16384 && this.size == 16384)
    {
      this.size := if size < MAX_BUFFER_SIZE then size else MAX_BUFFER_SIZE;
    }
  }

  /**
   Ownership between the pool and the live frames: full-size buffers, each owned once, by the pool
   or by one frame.
   */
  ghost predicate World(pool: Pool, frames: set<EtherFrame>)
    reads pool, pool.buffers, pool.status, frames
  {
    && pool.Valid()
    && Distinct(pool.Contents())
    && (forall b :: b in pool.Contents() ==> b.Length == MAX_BUFFER_SIZE)
    && (forall f :: f in frames && f.data != null ==>
          f.data.Length == MAX_BUFFER_SIZE && f.data !in pool.Contents())
    && (forall f, g :: f in frames && g in frames && f != g && f.data != null ==> f.data != g.data)
  }

  /** A buffer that neither the pool nor a live frame owns. */
  ghost predicate Unowned(pool: Pool, frames: set<EtherFrame>, b: Block)
    reads pool, pool.buffers, pool.status, frames
    requires pool.Valid()
  {
    b.Length == 16384 && b !in pool.Contents() && forall f :: f in frames ==> f.data != b
  }

  /** The facade: a buffer from the pool, or a new one when the pool is empty. Never null. */
  method ObtainBuffer(pool: Pool, ghost frames: set<EtherFrame>) returns (b: Block)
    requires World(pool, frames)
    modifies pool, pool.buffers, pool.status
    ensures World(pool, frames) && Unowned(pool, frames, b)
    ensures old(pool.Contents()) == [] ==> fresh(b) && pool.Contents() == []
    ensures old(pool.Contents()) != [] ==> old(pool.Contents()) == [b] + pool.Contents()
  {
    var r := pool.ObtainBuffer();
    match r {
      case Some(buffer) =>
        b := buffer;
        assert old(pool.Contents())[0] == b;
        assert forall k :: 0 <= k < |pool.Contents()| ==> pool.Contents()[k] == old(pool.Contents())[k + 1];
      case None =>
        b := new Byte[MAX_BUFFER_SIZE](_ => 0);
    }
  }

  /** The facade: null is ignored, anything else goes to the pool (which may be full and drop it). */
  method ReturnBuffer(pool: Pool, ghost frames: set<EtherFrame>, b: array?<Byte>)
    requires World(pool, frames)
    requires b != null ==> Unowned(pool, frames, b)
    modifies pool, pool.buffers, pool.status
    ensures World(pool, frames)
    ensures pool.Contents()
         == old(pool.Contents()) + if b == null || |old(pool.Contents())| == 1023 then [] else [b]
  {
    if b != null {
      pool.ReturnBuffer(b);
    }
  }

  method Construct(pool: Pool, ghost frames: set<EtherFrame>, size: nat) returns (f: EtherFrame)
    requires World(pool, frames)
    modifies pool, pool.buffers, pool.status
    ensures fresh(f) && f.data != null && f.size == size
    ensures World(pool, frames + {f})
    ensures old(pool.Contents()) == [] ==> fresh(f.data) && pool.Contents() == []
    ensures old(pool.Contents()) != [] ==> old(pool.Contents()) == [f.data] + pool.Contents()
  {
    var b := ObtainBuffer(pool, frames);
    f := new EtherFrame(b, size);
  }

  /** A frame made of a buffer that the caller had, or of none; nothing is taken from the pool. */
  method Adopt(pool: Pool, ghost frames: set<EtherFrame>, data: array?<Byte>, size: nat) returns (f: EtherFrame)
    requires World(pool, frames)
    requires data != null ==> Unowned(pool, frames, data)
    ensures fresh(f) && f.data == data && f.size == size
    ensures World(pool, frames + {f})
  {
    f := new EtherFrame(data, size);
  }

  /** The new frame owns the buffer; the old one keeps its size and owns nothing. */
  method MoveConstruct(pool: Pool, ghost frames: set<EtherFrame>, from: EtherFrame) returns (f: EtherFrame)
    requires World(pool, frames) && from in frames
    modifies from`data
    ensures fresh(f) && f.data == old(from.data) && f.size == from.size
    ensures from.data == null
    ensures World(pool, frames + {f})
  {
    f := new EtherFrame(from.data, from.size);
    from.data := null;
  }

  /**
   Move assignment frees the buffer that the target owned: it does not go back to the pool. A
   frame moved onto itself keeps its buffer.
   */
  method MoveAssign(pool: Pool, ghost frames: set<EtherFrame>, to: EtherFrame, from: EtherFrame)
    requires World(pool, frames) && to in frames && from in frames
    modifies to, from
    ensures World(pool, frames)
    ensures to.data == old(from.data) && to.size == old(from.size)
    ensures from != to ==> from.data == null && from.size == old(from.size)
    ensures pool.Contents() == old(pool.Contents())
    ensures from != to && old(to.data) != null ==> Unowned(pool, frames, old(to.data))
  {
    var data := from.data;
    from.data := null;
    to.data := data;
    to.size := from.size;
  }

  /** The destructor returns the buffer; a moved-from frame returns nothing. */
  method Destroy(pool: Pool, ghost frames: set<EtherFrame>, f: EtherFrame)
    requires World(pool, frames) && f in frames
    modifies pool, pool.buffers, pool.status, f`data
    ensures World(pool, frames - {f})
    ensures pool.Contents() == old(pool.Contents())
         + if old(f.data) == null || |old(pool.Contents())| == 1023 then [] else [old(f.data)]
  {
    var data := f.data;
    f.data := null;
    ReturnBuffer(pool, frames - {f}, data);
  }

  /**
   A copy with a buffer of its own. The copying is in bounds only for a frame that was not moved
   from and whose size fits the buffer; the sized constructor does not see to the latter.
   */
  method Clone(pool: Pool, ghost frames: set<EtherFrame>, f: EtherFrame) returns (another: EtherFrame)
    requires World(pool, frames) && f in frames
    requires f.data != null && f.size <= MAX_BUFFER_SIZE
    modifies pool, pool.buffers, pool.status, pool.Contents()
    ensures fresh(another) && another.data != null && another.data != f.data && another.size == f.size
    ensures another.data.Length == MAX_BUFFER_SIZE && another.data[..another.size] == f.data[..f.size]
    ensures World(pool, frames + {another})
    ensures old(pool.Contents()) == [] ==> fresh(another.data) && pool.Contents() == []
    ensures old(pool.Contents()) != [] ==> old(pool.Contents()) == [another.data] + pool.Contents()
    ensures forall g :: g in frames && g.data != null ==> g.data[..] == old(g.data[..])
  {
    var b := ObtainBuffer(pool, frames);
    assert !fresh(b) ==> b in old(pool.Contents());
    label copying:
    for i := 0 to f.size
      invariant b[..i] == f.data[..i]
      invariant forall g :: g in frames && g.data != null ==> g.data[..] == old@copying(g.data[..])
      invariant World(pool, frames) && Unowned(pool, frames, b)
      invariant pool.Contents() == old@copying(pool.Contents())
      modifies b
    {
      b[i] := f.data[i];
    }
    another := new EtherFrame(b, f.size);
  }

  /** Writing through one frame is not seen through any other live frame. */
  method Write(pool: Pool, ghost frames: set<EtherFrame>, f: EtherFrame, i: nat, v: Byte)
    requires World(pool, frames) && f in frames && f.data != null && i < MAX_BUFFER_SIZE
    modifies f.data
    ensures World(pool, frames)
    ensures f.data[..] == old(f.data[..])[i := v]
    ensures forall g :: g in frames && g != f && g.data != null ==> g.data[..] == old(g.data[..])
  {
    f.data[i] := v;
  }

  ghost function Members(live: seq<EtherFrame>): set<EtherFrame> {
    set f | f in live
  }

  ghost function ValueOf(f: EtherFrame): Value
    reads f, f.data
  {
    Value(if f.data == null then None else Some(f.data[..]), f.size)
  }

  /** The live frames as their users see them. */
  ghost function Values(live: seq<EtherFrame>): (values: seq<Value>)
    reads live, set f | f in live :: f.data
    ensures |values| == |live| && forall k :: 0 <= k < |live| ==> values[k] == ValueOf(live[k])
  {
    seq(|live|, k requires 0 <= k < |live| reads live, set f | f in live :: f.data => ValueOf(live[k]))
  }

  /** Every block that the pool or a live frame owns is among `ours`. */
  ghost predicate Ours(pool: Pool, live: seq<EtherFrame>, ours: set<Block>)
    reads pool, pool.buffers, pool.status, live
    requires pool.Valid()
  {
    && (forall b :: b in pool.Contents() ==> b in ours)
    && (forall f :: f in live && f.data != null ==> f.data in ours)
  }

  /** The new frame `f` joins the live ones. */
  lemma {:induction false} Joins(live: seq<EtherFrame>, f: EtherFrame)
    requires Distinct(live) && f !in live
    ensures Distinct(live + [f]) && Members(live + [f]) == Members(live) + {f}
  {
    assert forall g :: g in live + [f] <==> g in live || g == f;
  }

  /** The frame at `i` leaves the live ones. */
  lemma {:induction false} Leaves(live: seq<EtherFrame>, i: nat)
    requires Distinct(live) && i < |live|
    ensures Distinct(live[..i] + live[i + 1..])
    ensures Members(live[..i] + live[i + 1..]) == Members(live) - {live[i]}
    ensures forall f :: f in live[..i] + live[i + 1..] ==> f in live
  {
    forall f
      ensures f in live[..i] + live[i + 1..] <==> f in live && f != live[i]
    {
      if f in live && f != live[i] {
        var k :| 0 <= k < |live| && live[k] == f;
        assert f == if k < i then live[..i][k] else live[i + 1..][k - i - 1];
      }
    }
  }

  method LiveCopy(pool: Pool, live: seq<EtherFrame>, i: nat, ghost ours: set<Block>)
    returns (live': seq<EtherFrame>, ghost ours': set<Block>)
    requires World(pool, Members(live)) && Distinct(live) && Ours(pool, live, ours)
    requires Applies(Values(live), Copy(i))
    modifies pool, pool.buffers, pool.status, ours
    ensures World(pool, Members(live')) && Distinct(live') && Ours(pool, live', ours')
    ensures forall f :: f in live' ==> f in live || fresh(f)
    ensures ours <= ours' && fresh(ours' - ours)
    ensures OpStep(old(Values(live)), Copy(i), Values(live'))
  {
    assert forall b: Block :: b in pool.Contents() ==> b in ours;
    var f := Clone(pool, Members(live), live[i]);
    Joins(live, f);
    live' := live + [f];
    ours' := ours + {f.data};
    assert forall k :: 0 <= k < |live| ==> ValueOf(live[k]) == old(ValueOf(live[k]));
    assert Values(live')[..|live|] == old(Values(live));
  }

  method LiveNew(pool: Pool, live: seq<EtherFrame>, size: nat, ghost ours: set<Block>)
    returns (live': seq<EtherFrame>, ghost ours': set<Block>)
    requires World(pool, Members(live)) && Distinct(live) && Ours(pool, live, ours)
    modifies pool, pool.buffers, pool.status
    ensures World(pool, Members(live')) && Distinct(live') && Ours(pool, live', ours')
    ensures forall f :: f in live' ==> f in live || fresh(f)
    ensures ours <= ours' && fresh(ours' - ours)
    ensures OpStep(old(Values(live)), New(size), Values(live'))
  {
    var f := Construct(pool, Members(live), size);
    Joins(live, f);
    live' := live + [f];
    ours' := ours + {f.data};
    assert Values(live')[..|live|] == old(Values(live));
  }

  method LiveAdopt(pool: Pool, live: seq<EtherFrame>, bytes: Option<seq<Byte>>, size: nat, ghost ours: set<Block>)
    returns (live': seq<EtherFrame>, ghost ours': set<Block>)
    requires World(pool, Members(live)) && Distinct(live) && Ours(pool, live, ours)
    requires Applies(Values(live), Op.Adopt(bytes, size))
    ensures World(pool, Members(live')) && Distinct(live') && Ours(pool, live', ours')
    ensures forall f :: f in live' ==> f in live || fresh(f)
    ensures ours <= ours' && fresh(ours' - ours)
    ensures OpStep(old(Values(live)), Op.Adopt(bytes, size), Values(live'))
  {
    var data: array?<Byte> := null;
    if bytes.Some? {
      var buffer := bytes.value;
      data := new Byte[MAX_BUFFER_SIZE](k requires 0 <= k < |buffer| => buffer[k]);
      assert data[..] == buffer;
    }
    var f := Adopt(pool, Members(live), data, size);
    Joins(live, f);
    live' := live + [f];
    ours' := if data == null then ours else ours + {data};
  }

  method LiveMove(pool: Pool, live: seq<EtherFrame>, i: nat, ghost ours: set<Block>) returns (live': seq<EtherFrame>)
    requires World(pool, Members(live)) && Distinct(live) && Ours(pool, live, ours) && i < |live|
    modifies live[i]
    ensures World(pool, Members(live')) && Distinct(live') && Ours(pool, live', ours)
    ensures forall f :: f in live' ==> f in live || fresh(f)
    ensures OpStep(old(Values(live)), Move(i), Values(live'))
  {
    var f := MoveConstruct(pool, Members(live), live[i]);
    Joins(live, f);
    live' := live + [f];
  }

  method LiveAssign(pool: Pool, live: seq<EtherFrame>, i: nat, j: nat, ghost ours: set<Block>)
    requires World(pool, Members(live)) && Distinct(live) && Ours(pool, live, ours) && i < |live| && j < |live|
    modifies live[i], live[j]
    ensures World(pool, Members(live)) && Ours(pool, live, ours)
    ensures OpStep(old(Values(live)), Assign(i, j), Values(live))
  {
    MoveAssign(pool, Members(live), live[i], live[j]);
  }

  /** The values of the frames that are left when the one at `i` is gone. */
  lemma {:induction false} ValuesWithout(live: seq<EtherFrame>, i: nat, before: seq<Value>)
    requires i < |live| == |before|
    requires forall k :: 0 <= k < |live| && k != i ==> ValueOf(live[k]) == before[k]
    ensures Values(live[..i] + live[i + 1..]) == before[..i] + before[i + 1..]
  {
  }

  method LiveKill(pool: Pool, live: seq<EtherFrame>, i: nat, ghost ours: set<Block>)
    returns (live': seq<EtherFrame>)
    requires World(pool, Members(live)) && Distinct(live) && Ours(pool, live, ours) && i < |live|
    modifies pool, pool.buffers, pool.status, live[i]
    ensures World(pool, Members(live')) && Distinct(live') && Ours(pool, live', ours)
    ensures forall f :: f in live' ==> f in live
    ensures OpStep(old(Values(live)), Kill(i), Values(live'))
  {
    ghost var before := Values(live);
    Destroy(pool, Members(live), live[i]);
    assert forall k :: 0 <= k < |live| && k != i ==> ValueOf(live[k]) == before[k];
    ValuesWithout(live, i, before);
    Leaves(live, i);
    live' := live[..i] + live[i + 1..];
  }

  method LivePoke(pool: Pool, live: seq<EtherFrame>, i: nat, k: nat, v: Byte, ghost ours: set<Block>)
    requires World(pool, Members(live)) && Distinct(live) && Ours(pool, live, ours)
    requires Applies(Values(live), Poke(i, k, v))
    modifies live[i].data
    ensures World(pool, Members(live)) && Ours(pool, live, ours)
    ensures OpStep(old(Values(live)), Poke(i, k, v), Values(live))
  {
    Write(pool, Members(live), live[i], k, v);
    assert forall m :: 0 <= m < |live| && m != i ==> ValueOf(live[m]) == old(ValueOf(live[m]));
  }

  /**
   One event keeps every buffer with a single owner, and does to the frames what it does to them as
   values: no frame sees what happens to another. An event that does not apply is skipped.
   */
  method Live(pool: Pool, live: seq<EtherFrame>, op: Op, ghost ours: set<Block>)
    returns (live': seq<EtherFrame>, ghost ours': set<Block>)
    requires World(pool, Members(live)) && Distinct(live) && Ours(pool, live, ours)
    modifies pool, pool.buffers, pool.status, Members(live), ours
    ensures World(pool, Members(live')) && Distinct(live') && Ours(pool, live', ours')
    ensures forall f :: f in live' ==> f in live || fresh(f)
    ensures ours <= ours' && fresh(ours' - ours)
    ensures OpStep(old(Values(live)), op, Values(live'))
  {
    live', ours' := live, ours;
    match op {
      case New(size) => live', ours' := LiveNew(pool, live, size, ours);
      case Adopt(bytes, size) =>
        if bytes.Some? ==> |bytes.value| == MAX_BUFFER_SIZE {
          live', ours' := LiveAdopt(pool, live, bytes, size, ours);
        }
      case Move(i) =>
        if i < |live| {
          live' := LiveMove(pool, live, i, ours);
        }
      case Assign(i, j) =>
        if i < |live| && j < |live| {
          LiveAssign(pool, live, i, j, ours);
        }
      case Kill(i) =>
        if i < |live| {
          live' := LiveKill(pool, live, i, ours);
        }
      case Resize(i, size) =>
        if i < |live| {
          live[i].SetSize(size);
        }
      case Copy(i) =>
        if i < |live| && live[i].data != null && live[i].size <= MAX_BUFFER_SIZE {
          live', ours' := LiveCopy(pool, live, i, ours);
        }
      case Poke(i, k, v) =>
        if i < |live| && live[i].data != null && k < MAX_BUFFER_SIZE {
          LivePoke(pool, live, i, k, v, ours);
        }
    }
  }

  /**
   Whatever the sequence of constructions, adoptions, moves, clones, destructions, size changes and writes,
   the live frames own pairwise distinct buffers, none of which the pool holds, and through all of
   it the frames behave as values.
   */
  method LifeCycle(pool: Pool, script: seq<Op>, ghost stock: set<Block>)
    returns (live: seq<EtherFrame>, ghost values: seq<seq<Value>>)
    requires World(pool, {}) && forall b :: b in pool.Contents() ==> b in stock
    modifies pool, pool.buffers, pool.status, stock
    ensures World(pool, Members(live)) && Distinct(live)
    ensures Trace(values, script) && values[0] == [] && values[|script|] == Values(live)
  {
    live := [];
    ghost var ours := stock;
    assert Members(live) == {};
    values := [Values(live)];
    for k := 0 to |script|
      invariant World(pool, Members(live)) && Distinct(live) && Ours(pool, live, ours)
      invariant fresh(ours - stock) && forall f :: f in live ==> fresh(f)
      invariant Trace(values, script[..k]) && values[0] == [] && values[k] == Values(live)
    {
      assert script[..k + 1] == script[..k] + [script[k]];
      live, ours := Live(pool, live, script[k], ours);
      TraceNext(values, script[..k], script[k], Values(live));
      values := values + [Values(live)];
    }
    assert script[..|script|] == script;
  }
}
