/** Pooled payload buffers: reference counts, size classes and copy-on-write (`av/buffer.go`). */
module Buffer {
  import opened Basics

  const MIN_BLOCK_SHIFT := 6
  const MAX_BLOCK_SHIFT := 27

  // ---------------------------------------------------------------------
  // Size classes
  // ---------------------------------------------------------------------

  function Pow2(k: nat): (p: nat)
    ensures p >= 1
  {
    if k == 0 then 1 else 2 * Pow2(k - 1)
  }

  /** The number of bits needed for x. */
  function BitLen(x: nat): (k: nat) {
    if x == 0 then 0 else 1 + BitLen(x / 2)
  }

  /** `blockClass`: the pool for n bytes, or -1 when n is too large to pool. */
  function BlockClass(n: nat): int
    requires n > 0
  {
    var bits := BitLen(n - 1);
    var shift := if bits < MIN_BLOCK_SHIFT then MIN_BLOCK_SHIFT else bits;
    if shift > MAX_BLOCK_SHIFT then -1 else shift - MIN_BLOCK_SHIFT
  }

  function ClassSize(cls: nat): nat {
    Pow2(cls + MIN_BLOCK_SHIFT)
  }

  lemma {:induction false} BitLenBounds(x: nat)
    ensures x < Pow2(BitLen(x)) && (x > 0 ==> BitLen(x) > 0 && Pow2(BitLen(x) - 1) <= x)
  {
    if x > 0 {
      BitLenBounds(x / 2);
    }
  }

  lemma {:induction false} Pow2Monotone(a: nat, b: nat)
    requires a <= b
    ensures Pow2(a) <= Pow2(b)
  {
    if a < b {
      Pow2Monotone(a, b - 1);
    }
  }

  lemma Pow2Limits()
    ensures Pow2(6) == 64 && Pow2(27) == 134217728
  {
    assert Pow2(9) == 512;
    assert Pow2(18) == 262144;
  }

  /** The larger of the bits of n-1 and a least shift, for any limits of the classes. */
  lemma ShiftFits(n: nat, bits: nat, lo: nat, hi: nat)
    requires n > 0 && bits == BitLen(n - 1) && lo <= hi
    ensures var shift := if bits < lo then lo else bits;
      && (shift > hi <==> n > Pow2(hi)) && n <= Pow2(shift)
      && (if n > Pow2(lo) then Pow2(shift) < 2 * n else shift == lo)
  {
    BitLenBounds(n - 1);
    Pow2Monotone(lo, hi);
    if bits <= lo {
      Pow2Monotone(bits, lo);
    } else {
      Pow2Monotone(lo, bits - 1);
      if bits <= hi {
        Pow2Monotone(bits, hi);
      } else {
        Pow2Monotone(hi, bits - 1);
      }
    }
  }

  /** A pooled block holds n bytes and, past the smallest class, fewer than 2n; only huge sizes are not pooled. */
  lemma ClassFits(n: nat)
    requires n > 0
    ensures BlockClass(n) < 0 <==> n > 134217728
    ensures BlockClass(n) >= 0 ==> n <= ClassSize(BlockClass(n)) && (n > 64 ==> ClassSize(BlockClass(n)) < 2 * n)
    ensures BlockClass(n) >= 0 && n <= 64 ==> ClassSize(BlockClass(n)) == 64
  {
    Pow2Limits();
    ShiftFits(n, BitLen(n - 1), MIN_BLOCK_SHIFT, MAX_BLOCK_SHIFT);
  }

  // ---------------------------------------------------------------------
  // Blocks, handles, and who holds what
  // ---------------------------------------------------------------------

  /** One allocation; `take` counts how often it has been handed out. */
  datatype Block = Block(refs: int, cls: int, take: nat, data: seq<Byte>)

  /** A live Buffer value: a range of a block from one hand-out, or ordinary memory without an owner. */
  datatype Handle =
    | Pooled(block: nat, take: nat, off: nat, len: nat)
    | Plain(bytes: seq<Byte>)

  predicate Holds(h: Handle, b: nat) {
    h.Pooled? && h.block == b
  }

  function Holders(handles: map<nat, Handle>, b: nat): set<nat> {
    set i | i in handles && Holds(handles[i], b)
  }

  lemma SliceOfSlice(data: seq<Byte>, from: nat, n: nat, off: nat, len: nat)
    requires from + n <= |data| && off + len <= n
    ensures data[from+off..from+off+len] == data[from..from+n][off..off+len]
  {
    var a, b := data[from+off..from+off+len], data[from..from+n][off..off+len];
    assert |a| == |b| && forall x :: 0 <= x < |a| ==> a[x] == b[x];
  }

  /** A handle changed within its block has the same holders. */
  lemma HoldersSame(handles: map<nat, Handle>, i: nat, h: Handle, b: nat)
    requires i in handles && (Holds(handles[i], b) <==> Holds(h, b))
    ensures Holders(handles[i := h], b) == Holders(handles, b)
  {
  }

  lemma HoldersGain(handles: map<nat, Handle>, i: nat, h: Handle, b: nat)
    requires i !in Holders(handles, b)
    ensures |Holders(handles[i := h], b)| == |Holders(handles, b)| + if Holds(h, b) then 1 else 0
  {
    if Holds(h, b) {
      assert Holders(handles[i := h], b) == Holders(handles, b) + {i};
    } else {
      assert Holders(handles[i := h], b) == Holders(handles, b);
    }
  }

  lemma HoldersLose(handles: map<nat, Handle>, i: nat, b: nat)
    requires i in handles
    ensures |Holders(handles - {i}, b)| == |Holders(handles, b)| - if Holds(handles[i], b) then 1 else 0
  {
    if Holds(handles[i], b) {
      assert Holders(handles, b) == Holders(handles - {i}, b) + {i};
    } else {
      assert Holders(handles, b) == Holders(handles - {i}, b);
    }
  }

  /** Every live handle reads bytes its block has, from the block's current hand-out. */
  ghost predicate HandleValid(blocks: seq<Block>, h: Handle) {
    h.Pooled? ==> h.block < |blocks| && h.off + h.len <= |blocks[h.block].data| && h.take == blocks[h.block].take
  }

  /** A block's count is its live handles; a pooled block has none, and the size of its class. */
  ghost predicate BlockValid(blocks: seq<Block>, pool: set<nat>, handles: map<nat, Handle>, b: nat)
    requires b < |blocks|
  {
    && blocks[b].refs == |Holders(handles, b)|
    && (b in pool ==> blocks[b].refs == 0)
    && (blocks[b].cls >= 0 ==> |blocks[b].data| == ClassSize(blocks[b].cls))
    && (b in pool ==> blocks[b].cls >= 0)
  }

  ghost function BytesOf(blocks: seq<Block>, h: Handle): seq<Byte>
    requires HandleValid(blocks, h)
  {
    if h.Plain? then h.bytes else blocks[h.block].data[h.off..h.off+h.len]
  }

  class Memory {
    var blocks: seq<Block>
    var pool: set<nat>
    var handles: map<nat, Handle>

    constructor ()
      ensures Valid() && handles == map[]
    {
      blocks, pool, handles := [], {}, map[];
    }

    ghost predicate Valid()
      reads this
    {
      && (forall i :: i in handles ==> HandleValid(blocks, handles[i]))
      && (forall b :: 0 <= b < |blocks| ==> BlockValid(blocks, pool, handles, b))
      && (forall b :: b in pool ==> b < |blocks|)
    }

    ghost function Bytes(i: nat): seq<Byte>
      requires Valid() && i in handles
      reads this
    {
      BytesOf(blocks, handles[i])
    }

    /** `takeBlock`: a block of the right class that the pool may still have, else a new one. */
    method TakeBlock(n: nat) returns (b: nat)
      requires Valid() && n > 0
      modifies this`blocks, this`pool
      ensures b < |blocks| && blocks[b].refs == 1 && n <= |blocks[b].data| && b !in pool
      ensures BlockClass(n) < 0 ==> |blocks[b].data| == n
      ensures n > 64 && BlockClass(n) >= 0 ==> |blocks[b].data| < 2 * n
      ensures Holders(handles, b) == {}
      ensures |blocks| == |old(blocks)| || (|blocks| == |old(blocks)| + 1 && b == |old(blocks)|)
      ensures pool <= old(pool) && forall c :: 0 <= c < |old(blocks)| && c != b ==> blocks[c] == old(blocks)[c]
      ensures blocks[b].cls >= 0 ==> |blocks[b].data| == ClassSize(blocks[b].cls)
      ensures b < |old(blocks)| ==> blocks[b].take == old(blocks)[b].take + 1
    {
      var cls := BlockClass(n);
      ClassFits(n);
      if cls >= 0 {
        var ready: bool := *;
        if ready && exists c :: c in pool && blocks[c].cls == cls {
          b :| b in pool && blocks[b].cls == cls;
          assert BlockValid(blocks, pool, handles, b);
          pool := pool - {b};
          blocks := blocks[b := blocks[b].(refs := 1, take := blocks[b].take + 1)];
          return;
        }
      }
      var size := if cls < 0 then n else ClassSize(cls);
      b := |blocks|;
      blocks := blocks + [Block(1, cls, 0, seq(size, i => 0))];
    }

    /** `block.Retain`: panics, and changes nothing, once the last reference is gone. */
    method AddRef(b: nat) returns (panics: bool)
      requires b < |blocks|
      modifies this`blocks
      ensures panics == (old(blocks)[b].refs <= 0)
      ensures blocks == if panics then old(blocks) else old(blocks)[b := old(blocks)[b].(refs := old(blocks)[b].refs + 1)]
    {
      var refs := blocks[b].refs + 1;
      blocks := blocks[b := blocks[b].(refs := refs)];
      panics := refs <= 1;
      if panics {
        blocks := blocks[b := blocks[b].(refs := blocks[b].refs - 1)];
      }
    }

    /** `block.Release`: the last reference returns the bytes to their pool; one too many panics. */
    method DropRef(b: nat) returns (panics: bool)
      requires b < |blocks|
      modifies this`blocks, this`pool
      ensures panics == (old(blocks)[b].refs <= 0)
      ensures blocks == old(blocks)[b := old(blocks)[b].(refs := old(blocks)[b].refs - 1)]
      ensures pool == if old(blocks)[b].refs == 1 && old(blocks)[b].cls >= 0 then old(pool) + {b} else old(pool)
    {
      blocks := blocks[b := blocks[b].(refs := blocks[b].refs - 1)];
      panics := blocks[b].refs < 0;
      if blocks[b].refs == 0 && blocks[b].cls >= 0 {
        pool := pool + {b};
      }
    }

    /** `NewBuffer`: one new reference to bytes nobody else holds. */
    method NewBuffer(i: nat, n: int)
      requires Valid() && i !in handles
      modifies this
      ensures Valid() && i in handles && handles == old(handles)[i := handles[i]] && |Bytes(i)| == if n > 0 then n else 0
      ensures n <= 0 ==> handles[i] == Plain([])
      ensures n > 0 ==> handles[i].Pooled? && handles[i].off == 0 && Holders(handles, handles[i].block) == {i}
      ensures forall j :: j in old(handles) ==> Bytes(j) == old(Bytes(j))
    {
      if n <= 0 {
        handles := handles[i := Plain([])];
        forall b | 0 <= b < |blocks|
          ensures BlockValid(blocks, pool, handles, b)
        {
          assert BlockValid(old(blocks), old(pool), old(handles), b);
          HoldersGain(old(handles), i, Plain([]), b);
        }
        return;
      }
      var b := TakeBlock(n);
      NobodyHolds(handles, b);
      handles := handles[i := Pooled(b, blocks[b].take, 0, n)];
      forall c | 0 <= c < |blocks|
        ensures BlockValid(blocks, pool, handles, c)
      {
        if c != b {
          assert blocks[c] == old(blocks)[c];
          assert BlockValid(old(blocks), old(pool), old(handles), c);
        }
        HoldersGain(old(handles), i, handles[i], c);
      }
      assert Holders(handles, b) == Holders(old(handles), b) + {i};
    }

    /** `Retain`: a copy j of handle i, with a reference of its own. A live handle never panics. */
    method Retain(i: nat, j: nat)
      requires Valid() && i in handles && j !in handles
      modifies this`blocks, this`handles
      ensures Valid() && handles == old(handles)[j := old(handles)[i]]
      ensures Bytes(j) == Bytes(i) && forall k :: k in old(handles) ==> Bytes(k) == old(Bytes(k))
    {
      if handles[i].Pooled? {
        var b := handles[i].block;
        HolderCounts(handles, i);
        assert BlockValid(blocks, pool, handles, b);
        var panics := AddRef(b);
        assert !panics;
      }
      handles := handles[j := handles[i]];
      forall c | 0 <= c < |blocks|
        ensures BlockValid(blocks, pool, handles, c)
      {
        assert BlockValid(old(blocks), old(pool), old(handles), c);
        HoldersGain(old(handles), j, handles[j], c);
      }
    }

    /** `Release`: the handle is gone; its block goes back once nobody holds it. A live handle never panics. */
    method Release(i: nat)
      requires Valid() && i in handles
      modifies this
      ensures Valid() && handles == old(handles) - {i}
      ensures forall j :: j in handles ==> Bytes(j) == old(Bytes(j))
    {
      if handles[i].Pooled? {
        var b := handles[i].block;
        HolderCounts(handles, i);
        assert BlockValid(blocks, pool, handles, b);
        var panics := DropRef(b);
        assert !panics;
      }
      handles := handles - {i};
      forall c | 0 <= c < |blocks|
        ensures BlockValid(blocks, pool, handles, c)
      {
        assert BlockValid(old(blocks), old(pool), old(handles), c);
        HoldersLose(old(handles), i, c);
      }
    }

    /** The handle may be written: nobody else holds its bytes, and it has bytes of its own if any. */
    ghost predicate Writable(i: nat)
      requires i in handles
      reads this
    {
      if handles[i].Pooled? then Holders(handles, handles[i].block) == {i} else handles[i].bytes == []
    }

    /** Writing through a writable handle changes its own bytes and no others'. */
    method Write(i: nat, at: nat, v: Byte)
      requires Valid() && i in handles && Writable(i) && at < |Bytes(i)|
      modifies this`blocks
      ensures Valid() && Bytes(i) == old(Bytes(i))[at := v]
      ensures forall j :: j in handles && j != i ==> Bytes(j) == old(Bytes(j))
    {
      var h := handles[i];
      var b := h.block;
      blocks := blocks[b := blocks[b].(data := blocks[b].data[h.off + at := v])];
      forall c | 0 <= c < |blocks|
        ensures BlockValid(blocks, pool, handles, c)
      {
        assert BlockValid(old(blocks), pool, handles, c);
      }
      forall j | j in handles && j != i
        ensures !Holds(handles[j], b)
      {
        assert j !in Holders(handles, b);
      }
    }

    /** Bytes copied into a block nobody holds yet. */
    method CopyInto(b: nat, bytes: seq<Byte>)
      requires b < |blocks| && |bytes| <= |blocks[b].data|
      modifies this`blocks
      ensures blocks == old(blocks)[b := old(blocks)[b].(data := bytes + old(blocks)[b].data[|bytes|..])]
    {
      blocks := blocks[b := blocks[b].(data := bytes + blocks[b].data[|bytes|..])];
    }

    /** A Buffer value moved to another variable. */
    method Move(from: nat, to: nat)
      requires Valid() && from in handles && to !in handles
      modifies this`handles
      ensures Valid() && handles == (old(handles) - {from})[to := old(handles)[from]]
      ensures Bytes(to) == old(Bytes(from)) && forall j :: j in handles && j != to ==> Bytes(j) == old(Bytes(j))
      ensures old(Writable(from)) ==> Writable(to)
    {
      var h := handles[from];
      handles := (handles - {from})[to := h];
      forall c | 0 <= c < |blocks|
        ensures BlockValid(blocks, pool, handles, c)
      {
        assert BlockValid(blocks, pool, old(handles), c);
        HoldersLose(old(handles), from, c);
        HoldersGain(old(handles) - {from}, to, h, c);
      }
      if h.Pooled? {
        assert Holders(handles, h.block) == Holders(old(handles), h.block) - {from} + {to};
      }
    }

    /** `MakeWritable`: the same bytes, held by nobody else; everyone else keeps theirs. `next` is its local Buffer. */
    method MakeWritable(i: nat, next: nat)
      requires Valid() && i in handles && next !in handles
      modifies this
      ensures Valid() && i in handles && handles == old(handles)[i := handles[i]]
      ensures Writable(i) && Bytes(i) == old(Bytes(i))
      ensures forall j :: j in handles && j != i ==> Bytes(j) == old(Bytes(j))
    {
      var h := handles[i];
      if h.Pooled? {
        SoleHolder(handles, i);
        assert BlockValid(blocks, pool, handles, h.block);
        if blocks[h.block].refs == 1 {
          return;
        }
      }
      var bytes := if h.Plain? then h.bytes else blocks[h.block].data[h.off..h.off+h.len];
      Copy(next, bytes);
      BackInPlace(old(handles), next, handles[next], i);
      Replace(i, next);
    }

    /** A new Buffer holding these bytes. */
    method Copy(next: nat, bytes: seq<Byte>)
      requires Valid() && next !in handles
      modifies this
      ensures Valid() && next in handles && handles == old(handles)[next := handles[next]]
      ensures Writable(next) && Bytes(next) == bytes
      ensures forall j :: j in old(handles) ==> Bytes(j) == old(Bytes(j))
    {
      NewBuffer(next, |bytes|);
      if bytes != [] {
        Fill(next, bytes);
      }
    }

    /** The old reference released, the new Buffer in its place. */
    method Replace(i: nat, next: nat)
      requires Valid() && i in handles && next in handles && i != next && Writable(next)
      modifies this
      ensures Valid() && handles == (old(handles) - {next})[i := old(handles)[next]]
      ensures Writable(i) && Bytes(i) == old(Bytes(next))
      ensures forall j :: j in handles && j != i ==> Bytes(j) == old(Bytes(j))
    {
      Release(i);
      if handles[next].Pooled? {
        assert Holders(handles, handles[next].block) == Holders(old(handles), handles[next].block) - {i};
      }
      Move(next, i);
    }

    /** A handle cut down to part of its bytes. */
    method Narrow(i: nat, off: nat, len: nat)
      requires Valid() && i in handles && handles[i].Pooled? && off + len <= handles[i].len
      modifies this`handles
      ensures Valid() && handles == old(handles)[i := Pooled(old(handles)[i].block, old(handles)[i].take, old(handles)[i].off + off, len)]
      ensures Bytes(i) == old(Bytes(i))[off..off+len] && forall j :: j in handles && j != i ==> Bytes(j) == old(Bytes(j))
    {
      var h := handles[i];
      SliceOfSlice(blocks[h.block].data, h.off, h.len, off, len);
      handles := handles[i := Pooled(h.block, h.take, h.off + off, len)];
      forall c | 0 <= c < |blocks|
        ensures BlockValid(blocks, pool, handles, c)
      {
        assert BlockValid(blocks, pool, old(handles), c);
        HoldersSame(old(handles), i, handles[i], c);
      }
    }

    /** All of a sole holder's bytes overwritten at once. */
    method Fill(i: nat, bytes: seq<Byte>)
      requires Valid() && i in handles && handles[i].Pooled? && Writable(i) && |bytes| == |Bytes(i)| && handles[i].off == 0
      modifies this`blocks
      ensures Valid() && Bytes(i) == bytes
      ensures forall j :: j in handles && j != i ==> Bytes(j) == old(Bytes(j))
    {
      var b := handles[i].block;
      CopyInto(b, bytes);
      forall c | 0 <= c < |blocks|
        ensures BlockValid(blocks, pool, handles, c)
      {
        assert BlockValid(old(blocks), pool, handles, c);
      }
      forall j | j in handles && j != i
        ensures !Holds(handles[j], b)
      {
        assert j !in Holders(handles, b);
      }
    }
  }

  lemma BackInPlace(before: map<nat, Handle>, next: nat, h: Handle, i: nat)
    requires next !in before && i in before
    ensures (before[next := h] - {next})[i := h] == before[i := h]
  {
  }

  lemma SoleHolder(handles: map<nat, Handle>, i: nat)
    requires i in handles && handles[i].Pooled?
    ensures |Holders(handles, handles[i].block)| == 1 <==> Holders(handles, handles[i].block) == {i}
  {
    var all := Holders(handles, handles[i].block);
    assert i in all;
    if |all| == 1 {
      assert |all - {i}| == 0;
      assert all == (all - {i}) + {i};
    }
  }

  /** The planes of a frame: handles, each its own. */
  ghost predicate Planes(handles: map<nat, Handle>, planes: seq<nat>) {
    && (forall k :: 0 <= k < |planes| ==> planes[k] in handles)
    && (forall k, m :: 0 <= k < m < |planes| ==> planes[k] != planes[m])
  }

  /** `Frame.Ref`: a reference of its own for every plane; the bytes are shared, not copied. */
  method FrameRef(memory: Memory, planes: seq<nat>, copies: seq<nat>)
    requires memory.Valid() && |copies| == |planes| && Planes(memory.handles, planes)
    requires forall k :: 0 <= k < |copies| ==> copies[k] !in memory.handles
    requires forall k, m :: 0 <= k < m < |copies| ==> copies[k] != copies[m]
    modifies memory
    ensures memory.Valid() && Planes(memory.handles, copies)
    ensures forall j :: j in old(memory.handles) ==>
      j in memory.handles && memory.handles[j] == old(memory.handles)[j] && memory.Bytes(j) == old(memory.Bytes(j))
    ensures forall k :: 0 <= k < |planes| ==> memory.handles[copies[k]] == memory.handles[planes[k]]
    ensures forall j :: j in memory.handles ==> j in old(memory.handles) || j in copies
  {
    for n := 0 to |planes|
      invariant memory.Valid()
      invariant forall j :: j in old(memory.handles) ==>
        j in memory.handles && memory.handles[j] == old(memory.handles)[j] && memory.Bytes(j) == old(memory.Bytes(j))
      invariant forall k :: 0 <= k < n ==> copies[k] in memory.handles && memory.handles[copies[k]] == memory.handles[planes[k]]
      invariant forall k :: n <= k < |copies| ==> copies[k] !in memory.handles
      invariant forall j :: j in memory.handles ==> j in old(memory.handles) || j in copies
    {
      memory.Retain(planes[n], copies[n]);
    }
  }

  /** `Frame.Release`: every plane's reference is dropped, once. */
  method FrameRelease(memory: Memory, planes: seq<nat>)
    requires memory.Valid() && Planes(memory.handles, planes)
    modifies memory
    ensures memory.Valid()
    ensures forall j :: j in memory.handles <==> j in old(memory.handles) && j !in planes
    ensures forall j :: j in memory.handles ==> memory.handles[j] == old(memory.handles)[j] && memory.Bytes(j) == old(memory.Bytes(j))
  {
    for n := 0 to |planes|
      invariant memory.Valid()
      invariant forall j :: j in memory.handles <==> j in old(memory.handles) && j !in planes[..n]
      invariant forall j :: j in memory.handles ==> memory.handles[j] == old(memory.handles)[j] && memory.Bytes(j) == old(memory.Bytes(j))
    {
      assert planes[n] !in planes[..n];
      memory.Release(planes[n]);
      assert planes[..n+1] == planes[..n] + [planes[n]];
    }
    assert planes[..|planes|] == planes;
  }

  lemma HeldByOneOnly(handles: map<nat, Handle>, i: nat, j: nat)
    requires i in handles && j in handles && i != j && handles[i].Pooled? && Holders(handles, handles[i].block) == {i}
    ensures !Holds(handles[j], handles[i].block)
  {
    assert j !in Holders(handles, handles[i].block);
  }

  /** A handle stays writable when another one takes bytes of its own. */
  lemma StaysWritable(memory: Memory, before: map<nat, Handle>, i: nat, j: nat)
    requires i in before && j in before && i != j && i in memory.handles && memory.handles == before[i := memory.handles[i]]
    requires if before[j].Pooled? then Holders(before, before[j].block) == {j} else before[j].bytes == []
    requires memory.handles[i].Pooled? ==> Holders(memory.handles, memory.handles[i].block) == {i}
    ensures memory.Writable(j)
  {
    if before[j].Pooled? {
      var b := before[j].block;
      if memory.handles[i].Pooled? {
        HeldByOneOnly(memory.handles, i, j);
      }
      HeldByOneOnly(before, j, i);
      assert Holders(memory.handles, b) == Holders(before, b);
    }
  }

  /** `Frame.MakeWritable`: every plane writable, with the bytes it had; nobody else's bytes change. */
  method FrameMakeWritable(memory: Memory, planes: seq<nat>, next: nat)
    requires memory.Valid() && Planes(memory.handles, planes) && next !in memory.handles
    modifies memory
    ensures memory.Valid() && Planes(memory.handles, planes)
    ensures forall k :: 0 <= k < |planes| ==> memory.Writable(planes[k])
    ensures forall j :: j in memory.handles <==> j in old(memory.handles)
    ensures forall j :: j in memory.handles ==> memory.Bytes(j) == old(memory.Bytes(j))
  {
    for n := 0 to |planes|
      invariant memory.Valid()
      invariant forall j :: j in memory.handles <==> j in old(memory.handles)
      invariant forall j :: j in memory.handles ==> memory.Bytes(j) == old(memory.Bytes(j))
      invariant forall k :: 0 <= k < n ==> memory.Writable(planes[k])
    {
      ghost var before := memory.handles;
      memory.MakeWritable(planes[n], next);
      forall k | 0 <= k < n
        ensures memory.Writable(planes[k])
      {
        StaysWritable(memory, before, planes[n], planes[k]);
      }
    }
  }

  /** Two live handles that can see the same byte hold one hand-out of one block between them. */
  lemma SharedOnlyThroughRetain(memory: Memory, i: nat, j: nat)
    requires memory.Valid() && i in memory.handles && j in memory.handles && i != j
    requires memory.handles[i].Pooled? && memory.handles[j].Pooled? && memory.handles[i].block == memory.handles[j].block
    ensures memory.handles[i].take == memory.handles[j].take
    ensures memory.blocks[memory.handles[i].block].refs >= 2 && memory.handles[i].block !in memory.pool
  {
    var b := memory.handles[i].block;
    assert HandleValid(memory.blocks, memory.handles[i]) && HandleValid(memory.blocks, memory.handles[j]);
    assert BlockValid(memory.blocks, memory.pool, memory.handles, b);
    assert {i, j} <= Holders(memory.handles, b);
    PairFits(Holders(memory.handles, b), i, j);
  }

  lemma PairFits(s: set<nat>, i: nat, j: nat)
    requires i in s && j in s && i != j
    ensures |s| >= 2
  {
    assert s == (s - {i, j}) + {i, j};
  }

  function Put3(m: map<nat, Handle>, y: nat, a: Handle, u: nat, b: Handle, v: nat, c: Handle): map<nat, Handle> {
    m[y := a][u := b][v := c]
  }

  lemma Put3Twice(m: map<nat, Handle>, y: nat, u: nat, v: nat, h: Handle, a: Handle, b: Handle, c: Handle)
    requires y != u && u != v && y != v
    ensures Put3(Put3(m, y, h, u, h, v, h), y, a, u, b, v, c) == Put3(m, y, a, u, b, v, c)
  {
  }

  lemma HeldByThree(m: map<nat, Handle>, y: nat, u: nat, v: nat, a: Handle, b: Handle, c: Handle, blk: nat)
    requires y != u && u != v && y != v && Holders(m, blk) == {} && y !in m && u !in m && v !in m
    requires Holds(a, blk) && Holds(b, blk) && Holds(c, blk)
    ensures Holders(Put3(m, y, a, u, b, v, c), blk) == {y, u, v}
  {
    NobodyHolds(m, blk);
  }

  lemma OnlyTheNew(m: map<nat, Handle>, y: nat, h: Handle)
    requires y !in m && h.Pooled? && Holders(m[y := h], h.block) == {y}
    ensures Holders(m, h.block) == {}
  {
    forall j | j in m
      ensures !Holds(m[j], h.block)
    {
      assert j !in Holders(m[y := h], h.block);
    }
  }

  /** Three handles on the same bytes cut into three planes. */
  method Carve(memory: Memory, luma: nat, chroma: nat, y: nat, u: nat, v: nat, h: Handle)
    requires memory.Valid() && y != u && u != v && y != v && h.Pooled? && h.off == 0 && h.len == luma + 2 * chroma
    requires y in memory.handles && u in memory.handles && v in memory.handles
    requires memory.handles[y] == memory.handles[u] == memory.handles[v] == h
    modifies memory`handles
    ensures memory.Valid()
    ensures memory.handles == Put3(old(memory.handles), y, h.(len := luma), u, h.(off := luma, len := chroma), v, h.(off := luma + chroma, len := chroma))
    ensures forall j :: j in memory.handles && j != y && j != u && j != v ==> memory.Bytes(j) == old(memory.Bytes(j))
  {
    memory.Narrow(y, 0, luma);
    memory.Narrow(u, luma, chroma);
    memory.Narrow(v, luma + chroma, chroma);
  }

  /** One Buffer and two references to it. */
  method ThreeRefs(memory: Memory, n: nat, y: nat, u: nat, v: nat)
    requires memory.Valid() && y !in memory.handles && u !in memory.handles && v !in memory.handles
    requires y != u && u != v && y != v
    modifies memory
    ensures memory.Valid() && y in memory.handles
    ensures memory.handles == Put3(old(memory.handles), y, memory.handles[y], u, memory.handles[y], v, memory.handles[y])
    ensures if n == 0 then memory.handles[y] == Plain([]) else
      memory.handles[y].Pooled? && memory.handles[y].off == 0 && memory.handles[y].len == n && Holders(old(memory.handles), memory.handles[y].block) == {}
    ensures forall j :: j in old(memory.handles) ==> memory.Bytes(j) == old(memory.Bytes(j))
  {
    memory.NewBuffer(y, n);
    if memory.handles[y].Pooled? {
      OnlyTheNew(old(memory.handles), y, memory.handles[y]);
    }
    memory.Retain(y, u);
    memory.Retain(y, v);
  }

  /** `i420Canvas`: three planes of one block, side by side, each with its own reference. */
  method I420Canvas(memory: Memory, luma: nat, chroma: nat, y: nat, u: nat, v: nat)
    requires memory.Valid() && y !in memory.handles && u !in memory.handles && v !in memory.handles
    requires y != u && u != v && y != v
    modifies memory
    ensures memory.Valid()
    ensures luma + 2 * chroma == 0 ==> memory.handles == Put3(old(memory.handles), y, Plain([]), u, Plain([]), v, Plain([]))
    ensures luma + 2 * chroma > 0 ==> exists blk, take ::
      && memory.handles == Put3(old(memory.handles), y, Pooled(blk, take, 0, luma), u, Pooled(blk, take, luma, chroma), v, Pooled(blk, take, luma + chroma, chroma))
      && Holders(memory.handles, blk) == {y, u, v}
    ensures forall j :: j in old(memory.handles) ==> memory.Bytes(j) == old(memory.Bytes(j))
  {
    ThreeRefs(memory, luma + 2 * chroma, y, u, v);
    if luma + 2 * chroma > 0 {
      var h := memory.handles[y];
      var a, b, c := h.(len := luma), h.(off := luma, len := chroma), h.(off := luma + chroma, len := chroma);
      Put3Twice(old(memory.handles), y, u, v, h, a, b, c);
      Carve(memory, luma, chroma, y, u, v, h);
      HeldByThree(old(memory.handles), y, u, v, a, b, c, h.block);
    }
  }

  lemma NobodyHolds(handles: map<nat, Handle>, b: nat)
    requires Holders(handles, b) == {}
    ensures forall j :: j in handles ==> !Holds(handles[j], b)
  {
    forall j | j in handles
      ensures !Holds(handles[j], b)
    {
      assert j !in Holders(handles, b);
    }
  }

  lemma HolderCounts(handles: map<nat, Handle>, i: nat)
    requires i in handles && handles[i].Pooled?
    ensures |Holders(handles, handles[i].block)| >= 1
  {
    assert i in Holders(handles, handles[i].block);
  }
}
