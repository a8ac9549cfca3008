/** The fixed-size block allocator: a free list of raw pointers into a vector that reallocates. */
module MemoryPool {

  /** A `char*`: a chunk handed out by `new char[...]` and an offset into it. */
  datatype Ptr = Ptr(chunk: nat, offset: nat)

  /** A call either returns or throws `std::runtime_error`. */
  datatype Outcome<+T> = Ok(value: T) | Thrown

  // ---------------------------------------------------------------- specification

  /** The pool as a value: the chunk sizes, the pointer of every block, and the indices on the free
      list, first to last. Indices survive a reallocation; addresses do not. */
  datatype PoolState = PoolState(blockSize: nat, initial: nat, chunks: seq<nat>, data: seq<Ptr>, free: seq<nat>)

  predicate Disjoint(p: Ptr, q: Ptr, size: nat) {
    p.chunk != q.chunk || p.offset + size <= q.offset || q.offset + size <= p.offset
  }

  predicate InsideChunk(v: PoolState, p: Ptr) {
    p.chunk < |v.chunks| && p.offset + v.blockSize <= v.chunks[p.chunk]
  }

  predicate FreeIndices(free: seq<nat>, n: nat) {
    && (forall k :: 0 <= k < |free| ==> free[k] < n)
    && (forall k, l :: 0 <= k < l < |free| ==> free[k] != free[l])
  }

  /** What every reachable pool satisfies. */
  predicate Inv(v: PoolState) {
    && 0 < v.blockSize && 0 < v.initial
    && |v.data| == BlocksAfter(v.initial, |v.chunks|)
    && FreeIndices(v.free, |v.data|)
    && (forall i :: 0 <= i < |v.data| ==> InsideChunk(v, v.data[i]))
    && (forall i, j :: 0 <= i < j < |v.data| ==> Disjoint(v.data[i], v.data[j], v.blockSize))
  }

  function BlocksAfter(initial: nat, growths: nat): nat {
    if growths == 0 then 0
    else if growths == 1 then initial
    else 3 * BlocksAfter(initial, growths - 1)
  }

  function Power3(k: nat): nat {
    if k == 0 then 1 else 3 * Power3(k - 1)
  }

  function Empty(blockSize: nat, initial: nat): PoolState {
    PoolState(blockSize, initial, [], [], [])
  }

  /** How many blocks a growth adds. */
  function GrowBy(v: PoolState): nat {
    if |v.data| == 0 then v.initial else 2 * |v.data|
  }

  function NewBlocks(chunk: nat, n: nat, size: nat): (s: seq<Ptr>)
    ensures |s| == n
  {
    seq(n, i requires 0 <= i < n => Ptr(chunk, i * size))
  }

  /** The indices of n new blocks after `base` old ones, last block first. */
  function NewIndices(base: nat, n: nat): (s: seq<nat>)
    ensures |s| == n
  {
    seq(n, i requires 0 <= i < n => base + (n - 1 - i))
  }

  lemma OneMoreBlock(base: nat, chunk: nat, n: nat, size: nat)
    ensures NewBlocks(chunk, n + 1, size) == NewBlocks(chunk, n, size) + [Ptr(chunk, n * size)]
    ensures NewIndices(base, n + 1) == [base + n] + NewIndices(base, n)
  {
  }

  lemma NoneYet(base: nat, chunk: nat, size: nat)
    ensures NewBlocks(chunk, 0, size) == [] && NewIndices(base, 0) == []
  {
  }

  function Grown(v: PoolState): PoolState {
    var n := GrowBy(v);
    v.(chunks := v.chunks + [n * v.blockSize],
       data := v.data + NewBlocks(|v.chunks|, n, v.blockSize),
       free := NewIndices(|v.data|, n))
  }

  function Refill(v: PoolState): PoolState {
    if v.free == [] then Grown(v) else v
  }

  lemma RefillWhenEmpty(v: PoolState)
    requires v.free == []
    ensures Refill(v) == Grown(v)
  {
  }

  function AllocateView(v: PoolState, size: nat): (PoolState, Outcome<Ptr>)
    requires Inv(v)
  {
    if size > v.blockSize then (v, Thrown)
    else
      var w := Refill(v);
      GrowKeepsInv(v);
      (w.(free := w.free[1..]), Ok(w.data[w.free[0]]))
  }

  /** The first block with the given pointer, or the number of blocks. */
  function IndexOf(data: seq<Ptr>, p: Ptr): (i: nat)
    ensures i <= |data|
    ensures i < |data| ==> data[i] == p
    ensures p !in data[..i]
  {
    if data == [] || data[0] == p then 0
    else
      var i := IndexOf(data[1..], p) + 1;
      assert data[..i] == [data[0]] + data[1..][..i - 1];
      i
  }

  function DeallocateView(v: PoolState, p: Ptr): (PoolState, Outcome<()>) {
    var i := IndexOf(v.data, p);
    if i == |v.data| then (v, Thrown) else (v.(free := [i] + v.free), Ok(()))
  }

  /** The pointers handed out and not yet given back. */
  ghost function Outstanding(v: PoolState): set<Ptr> {
    set i | 0 <= i < |v.data| && i !in v.free :: v.data[i]
  }

  // ---------------------------------------------------------------- invariants

  lemma GrowKeepsInv(v: PoolState)
    requires Inv(v)
    ensures Inv(Refill(v)) && Refill(v).free != []
  {
    if v.free == [] {
      var w := Grown(v);
      GrowSizes(v);
      GrowIndices(v);
      NewBlocksInside(v);
      NewBlocksDisjoint(v);
    }
  }

  lemma {:induction false} BlocksAfterPositive(initial: nat, k: nat)
    requires 0 < initial && 0 < k
    ensures 0 < BlocksAfter(initial, k)
  {
    if k > 1 {
      BlocksAfterPositive(initial, k - 1);
    }
  }

  lemma GrowSizes(v: PoolState)
    requires Inv(v)
    ensures |Grown(v).data| == BlocksAfter(v.initial, |v.chunks| + 1) && 0 < GrowBy(v)
  {
    if |v.chunks| > 0 {
      BlocksAfterPositive(v.initial, |v.chunks|);
    }
  }

  lemma GrowIndices(v: PoolState)
    ensures FreeIndices(Grown(v).free, |Grown(v).data|)
  {
  }

  lemma Multiples(i: nat, j: nat, size: nat)
    requires i < j
    ensures i * size + size <= j * size
  {
    assert (i + 1) * size <= j * size;
  }

  lemma NewBlocksInside(v: PoolState)
    requires Inv(v)
    ensures var w := Grown(v); forall i :: 0 <= i < |w.data| ==> InsideChunk(w, w.data[i])
  {
    var w := Grown(v);
    forall i | 0 <= i < |w.data| ensures InsideChunk(w, w.data[i]) {
      if i < |v.data| {
        assert InsideChunk(v, v.data[i]);
      } else {
        Multiples(i - |v.data|, GrowBy(v), v.blockSize);
      }
    }
  }

  lemma NewBlocksDisjoint(v: PoolState)
    requires Inv(v)
    ensures var w := Grown(v); forall i, j :: 0 <= i < j < |w.data| ==> Disjoint(w.data[i], w.data[j], w.blockSize)
  {
    var w := Grown(v);
    forall i, j | 0 <= i < j < |w.data| ensures Disjoint(w.data[i], w.data[j], w.blockSize) {
      if j < |v.data| {
        assert Disjoint(v.data[i], v.data[j], v.blockSize);
      } else if i < |v.data| {
        assert InsideChunk(v, v.data[i]);
      } else {
        Multiples(i - |v.data|, j - |v.data|, v.blockSize);
      }
    }
  }

  /** After k growths the pool holds initial * 3^(k-1) blocks. */
  lemma {:induction false} BlocksAfterClosedForm(initial: nat, k: nat)
    requires 0 < k
    ensures BlocksAfter(initial, k) == initial * Power3(k - 1)
  {
    if k > 1 {
      BlocksAfterClosedForm(initial, k - 1);
      assert 3 * (initial * Power3(k - 2)) == initial * (3 * Power3(k - 2));
    }
  }

  lemma {:induction false} IndexOfIs(data: seq<Ptr>, p: Ptr, i: nat)
    requires i <= |data| && (i < |data| ==> data[i] == p)
    requires forall k :: 0 <= k < i ==> data[k] != p
    ensures IndexOf(data, p) == i
  {
    if i > 0 {
      IndexOfIs(data[1..], p, i - 1);
    }
  }

  lemma InPrefix(data: seq<Ptr>, i: nat, j: nat)
    requires i < |data| && j <= |data|
    ensures i < j ==> data[i] in data[..j]
  {
    if i < j {
      assert data[..j][i] == data[i];
    }
  }

  lemma {:induction false} PointersAreUnique(v: PoolState, i: nat)
    requires Inv(v) && i < |v.data|
    ensures IndexOf(v.data, v.data[i]) == i
  {
    var j := IndexOf(v.data, v.data[i]);
    assert j < i ==> Disjoint(v.data[j], v.data[i], v.blockSize);
    InPrefix(v.data, i, j);
  }

  /** A successful allocation hands out one pointer that nobody holds, and nothing else changes
      for the holders. */
  lemma {:induction false} AllocateHandsOutOneFreshBlock(v: PoolState, size: nat)
    requires Inv(v)
    ensures var (w, r) := AllocateView(v, size);
            && Inv(w)
            && (r.Thrown? <==> size > v.blockSize)
            && (r.Thrown? ==> w == v)
            && (r.Ok? ==> r.value !in Outstanding(v) && Outstanding(w) == Outstanding(v) + {r.value})
  {
    if size <= v.blockSize {
      GrowKeepsInv(v);
      RefillKeepsOutstanding(v);
      PopHandsOut(Refill(v));
    }
  }

  lemma NewBlockAt(v: PoolState, k: nat)
    requires Inv(v) && v.free == [] && k < GrowBy(v)
    ensures var n, w := GrowBy(v), Grown(v);
            && w.free[k] == |v.data| + (n - 1 - k)
            && w.data[w.free[k]].chunk == |v.chunks| && w.data[w.free[k]].offset == (n - 1 - k) * v.blockSize
  {
    hide Inv;
  }

  /** An allocation on an empty list cuts a new chunk, of the initial number of blocks or of twice as many
      as there are, and hands out the last block of it. */
  lemma {:induction false} GrowthHandsOutTheLastBlock(v: PoolState, size: nat)
    requires Inv(v) && v.free == [] && size <= v.blockSize
    ensures var n := if v.data == [] then v.initial else 2 * |v.data|;
            var (w, r) := AllocateView(v, size);
            && n > 0 && w.chunks == v.chunks + [n * v.blockSize]
            && |w.data| == |v.data| + n && v.data <= w.data && |w.free| == n - 1
            && r.Ok? && r.value.chunk == |v.chunks| && r.value.offset + v.blockSize == n * v.blockSize
  {
    GrowSizes(v);
    GrowKeepsInv(v);
    NewBlockAt(v, 0);
    hide Inv, NewBlocks, NewIndices;
    Distributes(GrowBy(v), v.blockSize);
  }

  lemma Distributes(n: nat, size: nat)
    requires n > 0
    ensures (n - 1) * size + size == n * size
  {
  }

  /** Every later one, until the list is empty again, hands out the block in front of the one before. */
  lemma {:induction false} NewBlocksAreListedDownwards(v: PoolState, k: nat)
    requires Inv(v) && v.free == [] && k + 1 < GrowBy(v)
    ensures var w := Grown(v);
            var p, q := w.data[w.free[k]], w.data[w.free[k + 1]];
            p.chunk == q.chunk == |v.chunks| && q.offset + v.blockSize == p.offset
  {
    NewBlockAt(v, k);
    NewBlockAt(v, k + 1);
    hide Inv, Grown;
    Distributes(GrowBy(v) - 1 - k, v.blockSize);
  }

  lemma PopMembership(free: seq<nat>, n: nat, k: nat)
    requires FreeIndices(free, n) && free != []
    ensures FreeIndices(free[1..], n)
    ensures k in free[1..] <==> k in free && k != free[0]
  {
    assert free == [free[0]] + free[1..];
  }

  lemma PopHandsOut(u: PoolState)
    requires Inv(u) && u.free != []
    ensures var w, p := u.(free := u.free[1..]), u.data[u.free[0]];
            Inv(w) && p !in Outstanding(u) && Outstanding(w) == Outstanding(u) + {p}
  {
    var w, p := u.(free := u.free[1..]), u.data[u.free[0]];
    PopMembership(u.free, |u.data|, 0);
    forall i | 0 <= i < |u.data|
      ensures i !in w.free <==> i !in u.free || i == u.free[0]
      ensures u.data[i] == p ==> i == u.free[0]
    {
      PopMembership(u.free, |u.data|, i);
      PointersAreUnique(u, i);
      PointersAreUnique(u, u.free[0]);
    }
    assert forall q :: q in Outstanding(w) <==> exists i :: 0 <= i < |w.data| && i !in w.free && w.data[i] == q;
    assert forall q :: q in Outstanding(u) <==> exists i :: 0 <= i < |u.data| && i !in u.free && u.data[i] == q;
    assert u.data[u.free[0]] in Outstanding(w);
  }

  lemma RefillKeepsOutstanding(v: PoolState)
    requires Inv(v)
    ensures Outstanding(Refill(v)) == Outstanding(v)
  {
    if v.free == [] {
      var w := Grown(v);
      forall i | 0 <= i < |w.data| ensures i in w.free <==> |v.data| <= i {
        if |v.data| <= i {
          assert w.free[GrowBy(v) - 1 - (i - |v.data|)] == i;
        }
      }
      forall p | p in Outstanding(v) ensures p in Outstanding(w) {
        var i :| 0 <= i < |v.data| && v.data[i] == p;
        assert w.data[i] == p;
      }
    }
  }

  lemma PushMembership(free: seq<nat>, n: nat, i: nat)
    requires FreeIndices(free, n) && i < n && i !in free
    ensures FreeIndices([i] + free, n)
  {
  }

  lemma PushTakesBack(v: PoolState, i: nat)
    requires Inv(v) && i < |v.data| && i !in v.free
    ensures var w := v.(free := [i] + v.free);
            Inv(w) && Outstanding(w) == Outstanding(v) - {v.data[i]}
  {
    var w := v.(free := [i] + v.free);
    PushMembership(v.free, |v.data|, i);
    forall k: nat | k < |v.data| ensures v.data[k] == v.data[i] ==> k == i {
      PointersAreUnique(v, k);
      PointersAreUnique(v, i);
    }
    assert Inv(w);
    hide Inv;
    assert forall k :: k in w.free <==> k == i || k in v.free;
    assert forall q :: q in Outstanding(w) <==> exists k :: 0 <= k < |v.data| && k !in w.free && v.data[k] == q;
    assert forall q :: q in Outstanding(v) <==> exists k :: 0 <= k < |v.data| && k !in v.free && v.data[k] == q;
  }

  /** Giving back a held pointer takes exactly that one from the holders; an unknown pointer is
      refused and changes nothing. */
  lemma {:induction false} DeallocateTakesBackOneBlock(v: PoolState, p: Ptr)
    requires Inv(v)
    ensures var (w, r) := DeallocateView(v, p);
            && (p !in v.data ==> r.Thrown? && w == v)
            && (p in Outstanding(v) ==> r.Ok? && Inv(w) && Outstanding(w) == Outstanding(v) - {p})
  {
    var i := IndexOf(v.data, p);
    if p in Outstanding(v) {
      var j :| 0 <= j < |v.data| && j !in v.free && v.data[j] == p;
      PointersAreUnique(v, j);
      PushTakesBack(v, j);
    } else if i == |v.data| {
      assert v.data[..i] == v.data;
    }
  }

  /** The block given back last is the next one handed out, and the pair of calls leaves no trace. */
  lemma {:induction false} DeallocateThenAllocate(v: PoolState, p: Ptr, size: nat)
    requires Inv(v) && p in Outstanding(v) && size <= v.blockSize
    ensures var w := DeallocateView(v, p).0;
            Inv(w) && AllocateView(w, size) == (v, Ok(p))
  {
    DeallocateTakesBackOneBlock(v, p);
    var i := IndexOf(v.data, p);
    assert i < |v.data|;
    var w := DeallocateView(v, p).0;
    assert w.free[1..] == v.free;
  }

  lemma FreedTwice(free: seq<nat>, n: nat, i: nat)
    ensures !FreeIndices([i, i] + free, n)
  {
    var pushed := [i, i] + free;
    assert pushed[0] == pushed[1];
  }

  /** Giving a held pointer back twice is accepted both times, and leaves a pool that is none. */
  lemma {:induction false} DoubleFreeBreaksThePool(v: PoolState, p: Ptr)
    requires Inv(v) && p in Outstanding(v)
    ensures var w := DeallocateView(v, p).0;
            var (x, r) := DeallocateView(w, p);
            Inv(w) && r.Ok? && !Inv(x)
  {
    DeallocateTakesBackOneBlock(v, p);
    var i, w := IndexOf(v.data, p), DeallocateView(v, p).0;
    var x := DeallocateView(w, p).0;
    assert x.free == [i, i] + v.free;
    FreedTwice(v.free, |x.data|, i);
  }

  /** The smallest pool: one block, allocated once and given back twice. */
  lemma {:induction false} SmallestDoubleFree()
    ensures var v := Empty(1, 1);
            && Inv(v)
            && var (w, r) := AllocateView(v, 1);
               r.Ok? && !Inv(DeallocateView(DeallocateView(w, r.value).0, r.value).0)
  {
    var v := Empty(1, 1);
    AllocateHandsOutOneFreshBlock(v, 1);
    var (w, r) := AllocateView(v, 1);
    DoubleFreeBreaksThePool(w, r.value);
  }

  // ---------------------------------------------------------------- whole runs

  datatype Op = Allocate(size: nat) | Deallocate(ptr: Ptr)

  /** The one thing a caller must not do is give back a block that is already free. */
  predicate Allowed(v: PoolState, op: Op) {
    op.Deallocate? ==> IndexOf(v.data, op.ptr) !in v.free
  }

  function Step(v: PoolState, op: Op): (w: PoolState)
    requires Inv(v) && Allowed(v, op)
    ensures Inv(w)
  {
    match op
    case Allocate(size) =>
      AllocateHandsOutOneFreshBlock(v, size);
      AllocateView(v, size).0
    case Deallocate(p) =>
      DeallocateKeepsInv(v, p);
      DeallocateView(v, p).0
  }

  lemma DeallocateKeepsInv(v: PoolState, p: Ptr)
    requires Inv(v) && IndexOf(v.data, p) !in v.free
    ensures Inv(DeallocateView(v, p).0)
  {
    if IndexOf(v.data, p) < |v.data| {
      assert p in Outstanding(v);
      DeallocateTakesBackOneBlock(v, p);
    }
  }

  predicate Legal(v: PoolState, ops: seq<Op>)
    requires Inv(v)
    decreases ops
  {
    ops == [] || (Allowed(v, ops[0]) && Legal(Step(v, ops[0]), ops[1..]))
  }

  function Run(v: PoolState, ops: seq<Op>): (w: PoolState)
    requires Inv(v) && Legal(v, ops)
    ensures Inv(w)
    decreases ops
  {
    if ops == [] then v else Run(Step(v, ops[0]), ops[1..])
  }

  function InUse(v: PoolState): int {
    |v.data| - |v.free|
  }

  function Peak(v: PoolState, ops: seq<Op>): int
    requires Inv(v) && Legal(v, ops)
    decreases ops
  {
    if ops == [] then InUse(v)
    else
      var rest := Peak(Step(v, ops[0]), ops[1..]);
      if InUse(v) > rest then InUse(v) else rest
  }

  lemma {:induction false} PeakIsAtLeastNow(v: PoolState, ops: seq<Op>)
    requires Inv(v) && Legal(v, ops)
    ensures InUse(v) <= Peak(v, ops)
  {
  }

  lemma {:induction false} GrowthBoundFrom(v: PoolState, ops: seq<Op>, bound: int)
    requires Inv(v) && Legal(v, ops)
    requires |v.data| <= bound && v.initial <= bound && 3 * (Peak(v, ops) - 1) <= bound
    ensures |Run(v, ops).data| <= bound
    decreases ops
  {
    if ops != [] {
      var w := Step(v, ops[0]);
      PeakIsAtLeastNow(w, ops[1..]);
      if ops[0].Allocate? {
        GrowKeepsInv(v);
      }
      assert |w.data| <= bound && w.initial == v.initial;
      GrowthBoundFrom(w, ops[1..], bound);
    }
  }

  /** Whatever the calls are, the pool never holds more than the larger of its initial size and
      three times one less than the most blocks ever in use at once. */
  lemma {:induction false} GrowthBound(blockSize: nat, initial: nat, ops: seq<Op>)
    requires 0 < blockSize && 0 < initial
    requires Legal(Empty(blockSize, initial), ops)
    ensures var v := Empty(blockSize, initial);
            var triple := 3 * (Peak(v, ops) - 1);
            |Run(v, ops).data| <= if initial > triple then initial else triple
  {
    var v := Empty(blockSize, initial);
    var triple := 3 * (Peak(v, ops) - 1);
    GrowthBoundFrom(v, ops, if initial > triple then initial else triple);
  }

  /** In every reachable pool, two pointers in use address disjoint ranges inside their chunks. */
  lemma {:induction false} BlocksInUseNeverOverlap(blockSize: nat, initial: nat, ops: seq<Op>, p: Ptr, q: Ptr)
    requires 0 < blockSize && 0 < initial
    requires Legal(Empty(blockSize, initial), ops)
    requires p in Outstanding(Run(Empty(blockSize, initial), ops))
    requires q in Outstanding(Run(Empty(blockSize, initial), ops))
    ensures p == q || Disjoint(p, q, blockSize)
    ensures InsideChunk(Run(Empty(blockSize, initial), ops), p)
  {
    var v := Run(Empty(blockSize, initial), ops);
    RunKeepsSizes(Empty(blockSize, initial), ops);
    var i :| 0 <= i < |v.data| && v.data[i] == p;
    var j :| 0 <= j < |v.data| && v.data[j] == q;
    if i != j {
      assert Disjoint(v.data[if i < j then i else j], v.data[if i < j then j else i], blockSize);
    }
    assert InsideChunk(v, v.data[i]);
  }

  lemma {:induction false} RunKeepsSizes(v: PoolState, ops: seq<Op>)
    requires Inv(v) && Legal(v, ops)
    ensures Run(v, ops).blockSize == v.blockSize && Run(v, ops).initial == v.initial
    decreases ops
  {
    if ops != [] {
      RunKeepsSizes(Step(v, ops[0]), ops[1..]);
    }
  }

  // ---------------------------------------------------------------- the pool as an object

  /** One element of the vector. A reallocation copies it to a new address: the old object stays
      in the heap as a dead block that no live pointer may reach. */
  class MemoryBlock {
    var data: Ptr
    var next: MemoryBlock?

    constructor (data: Ptr)
      ensures this.data == data && next == null
    {
      this.data := data;
      next := null;
    }
  }

  /** The address of the k-th listed block, null past the end. */
  function At(blocks: seq<MemoryBlock>, free: seq<nat>, k: nat): MemoryBlock? {
    if k < |free| && free[k] < |blocks| then blocks[free[k]] else null
  }

  /** `head` is a null-terminated list through exactly the blocks with the given indices: every
      node it reaches lies in the current storage. */
  ghost predicate Linked(blocks: seq<MemoryBlock>, free: seq<nat>, head: MemoryBlock?)
    reads blocks
  {
    && (forall k :: 0 <= k < |free| ==> free[k] < |blocks|)
    && head == At(blocks, free, 0)
    && (forall k :: 0 <= k < |free| ==> blocks[free[k]].next == At(blocks, free, k + 1))
  }

  predicate DistinctBlocks(blocks: seq<MemoryBlock>) {
    forall i, j :: 0 <= i < j < |blocks| ==> blocks[i] != blocks[j]
  }

  ghost function DataOf(blocks: seq<MemoryBlock>): (data: seq<Ptr>)
    reads blocks
    ensures |data| == |blocks|
  {
    seq(|blocks|, i requires 0 <= i < |blocks| reads blocks => blocks[i].data)
  }

  /** A non-null head is the block of the first free index, in the current storage. */
  lemma ListedIffFree(blocks: seq<MemoryBlock>, free: seq<nat>, head: MemoryBlock?)
    requires Linked(blocks, free, head)
    ensures head == null <==> free == []
    ensures head != null ==> head in blocks && DataOf(blocks)[free[0]] == head.data
  {
  }

  lemma LinkedTail(blocks: seq<MemoryBlock>, free: seq<nat>, head: MemoryBlock?)
    requires Linked(blocks, free, head) && free != []
    ensures Linked(blocks, free[1..], head.next)
  {
    assert blocks[free[0]].next == At(blocks, free, 1);
    assert forall k :: 0 <= k < |free[1..]| ==> free[1..][k] == free[k + 1];
    assert forall k :: 0 <= k <= |free[1..]| ==> At(blocks, free[1..], k) == At(blocks, free, k + 1);
  }

  lemma LinkedNext(blocks: seq<MemoryBlock>, list: seq<nat>, at: nat)
    requires at < |list| && Linked(blocks, list, At(blocks, list, 0))
    ensures list[at] < |blocks| && blocks[list[at]].next == At(blocks, list, at + 1)
    ensures blocks[list[at]].next != null ==> at + 1 < |list| && list[at + 1] < |blocks|
  {
  }

  lemma SameIndex(blocks: seq<MemoryBlock>, i: nat, j: nat)
    requires DistinctBlocks(blocks) && i < |blocks| && j < |blocks| && blocks[i] == blocks[j]
    ensures i == j
  {
  }

  /** Pushing a block that is already on the list closes it into a cycle: after that no
      null-terminated list starts at the head. */
  lemma {:induction false} CycleHasNoEnd(blocks: seq<MemoryBlock>, free: seq<nat>, k: nat, list: seq<nat>, at: nat)
    requires DistinctBlocks(blocks) && FreeIndices(free, |blocks|) && k < |free|
    requires forall m :: 0 <= m < k ==> blocks[free[m]].next == blocks[free[m + 1]]
    requires blocks[free[k]].next == blocks[free[0]]
    requires at < |list| && list[at] in free[..k + 1]
    requires Linked(blocks, list, At(blocks, list, 0))
    ensures false
    decreases |list| - at
  {
    hide DistinctBlocks, Linked;
    var m :| 0 <= m <= k && free[m] == list[at];
    var to := if m == k then 0 else m + 1;
    LinkedNext(blocks, list, at);
    assert blocks[free[m]].next == blocks[free[to]];
    SameIndex(blocks, list[at + 1], free[to]);
    assert free[..k + 1][to] == free[to];
    CycleHasNoEnd(blocks, free, k, list, at + 1);
  }

  lemma OthersDiffer(blocks: seq<MemoryBlock>, free: seq<nat>, i: nat)
    requires DistinctBlocks(blocks) && FreeIndices(free, |blocks|) && i < |blocks|
    ensures forall m :: 0 <= m < |free| && free[m] != i ==> blocks[free[m]] != blocks[i]
    ensures forall k, m :: 0 <= k < |free| && 0 <= m < |free| && free[k] == free[m] ==> k == m
  {
  }

  /** The list without node i is untouched, and node i is put in front of it. */
  lemma PushedOnce(blocks: seq<MemoryBlock>, free: seq<nat>, i: nat, head: MemoryBlock?)
    requires i < |blocks| && i !in free && blocks[i].next == head && Linked(blocks, free, head)
    ensures Linked(blocks, [i] + free, blocks[i])
  {
    var pushed := [i] + free;
    assert forall k :: 0 <= k <= |free| ==> At(blocks, pushed, k + 1) == At(blocks, free, k);
    forall k | 0 <= k < |pushed| ensures pushed[k] < |blocks| && blocks[pushed[k]].next == At(blocks, pushed, k + 1) {
      if k > 0 {
        assert pushed[k] == free[k - 1];
      }
    }
  }

  lemma OneMoreElement(blocks: seq<MemoryBlock>, b: MemoryBlock)
    requires DistinctBlocks(blocks) && b !in blocks
    ensures DistinctBlocks(blocks + [b]) && DataOf(blocks + [b]) == DataOf(blocks) + [b.data]
  {
  }

  lemma ListedStillListed(blocks: seq<MemoryBlock>, b: MemoryBlock, free: seq<nat>, head: MemoryBlock?)
    requires Linked(blocks, free, head)
    ensures Linked(blocks + [b], free, head) && |blocks| !in free
  {
    assert forall k :: 0 <= k <= |free| ==> At(blocks + [b], free, k) == At(blocks, free, k);
  }

  lemma {:induction false} PushedTwice(blocks: seq<MemoryBlock>, free: seq<nat>, k: nat, list: seq<nat>)
    requires DistinctBlocks(blocks) && FreeIndices(free, |blocks|) && k < |free|
    requires forall m :: 0 <= m < |free| && m != k ==> blocks[free[m]].next == At(blocks, free, m + 1)
    requires blocks[free[k]].next == blocks[free[0]]
    requires Linked(blocks, list, blocks[free[k]])
    ensures false
  {
    assert list[0] == free[k] && free[k] in free[..k + 1];
    CycleHasNoEnd(blocks, free, k, list, 0);
  }

  class MemoryPool {
    const blockSize: nat
    const initialPoolSize: nat
    var pool: seq<nat>
    var blocks: seq<MemoryBlock>
    var capacity: nat
    var freeList: MemoryBlock?
    ghost var free: seq<nat>

    ghost function View(): PoolState
      reads this, blocks
    {
      PoolState(blockSize, initialPoolSize, pool, DataOf(blocks), free)
    }

    ghost predicate Valid()
      reads this, blocks
    {
      && Inv(View())
      && |blocks| <= capacity
      && DistinctBlocks(blocks)
      && Linked(blocks, free, freeList)
    }

    constructor (blockSize: nat, initialPoolSize: nat)
      requires 0 < blockSize && 0 < initialPoolSize
      ensures Valid() && View() == Empty(blockSize, initialPoolSize) && blocks == []
    {
      this.blockSize, this.initialPoolSize := blockSize, initialPoolSize;
      pool, blocks, capacity, freeList := [], [], 0, null;
      free := [];
    }

    /** `blocks_.reserve(n)`: past the capacity every element moves to a new address, and the `next`
        pointers are copied as they are. */
    method Reserve(n: nat)
      requires |blocks| <= capacity && DistinctBlocks(blocks)
      modifies this`blocks, this`capacity
      ensures n <= capacity && |blocks| <= capacity && DistinctBlocks(blocks)
      ensures n <= old(capacity) ==> blocks == old(blocks) && capacity == old(capacity)
      ensures old(capacity) < n ==> forall b :: b in blocks ==> fresh(b)
      ensures |blocks| == old(|blocks|)
      ensures forall i :: 0 <= i < |blocks| ==>
                blocks[i].data == old(blocks[i].data) && blocks[i].next == old(blocks[i].next)
    {
      if capacity < n {
        var moved: seq<MemoryBlock> := [];
        var i := 0;
        while i < |blocks|
          invariant blocks == old(blocks) && capacity == old(capacity)
          invariant 0 <= i == |moved| <= |blocks|
          invariant forall b :: b in moved ==> fresh(b)
          invariant DistinctBlocks(moved)
          invariant forall k :: 0 <= k < i ==> moved[k].data == blocks[k].data && moved[k].next == blocks[k].next
        {
          var b := new MemoryBlock(blocks[i].data);
          b.next := blocks[i].next;
          moved := moved + [b];
          i := i + 1;
        }
        blocks, capacity := moved, n;
      }
    }

    /** One round of the growth loop: append a block inside the capacity and push it on the list. */
    method EmplaceFree(p: Ptr)
      requires |blocks| < capacity && DistinctBlocks(blocks) && Linked(blocks, free, freeList)
      modifies this`blocks, this`freeList, this`free
      ensures |blocks| == old(|blocks|) + 1 && blocks[..old(|blocks|)] == old(blocks)
      ensures fresh(blocks[old(|blocks|)])
      ensures DistinctBlocks(blocks) && Linked(blocks, free, freeList)
      ensures DataOf(blocks) == old(DataOf(blocks)) + [p] && free == [old(|blocks|)] + old(free)
    {
      hide Linked, DataOf, DistinctBlocks;
      ghost var before, listed, n := blocks, free, |blocks|;
      var b := new MemoryBlock(p);
      blocks := blocks + [b];
      blocks[|blocks| - 1].next := freeList;
      assert blocks[n] == b && b !in before;
      OneMoreElement(before, b);
      ListedStillListed(before, b, listed, freeList);
      PushedOnce(blocks, listed, n, freeList);
      freeList := blocks[|blocks| - 1];
      free := [|blocks| - 1] + free;
    }

    method Grow()
      requires Valid() && freeList == null
      modifies this, blocks
      ensures Valid() && View() == old(Refill(View())) && free != []
      ensures forall b :: b in blocks ==> fresh(b) || b in old(blocks)
    {
      ghost var v := View();
      GrowKeepsInv(v);
      ListedIffFree(blocks, free, freeList);
      hide Inv, NewBlocks, NewIndices, Refill;
      var newPoolSize := if |blocks| == 0 then initialPoolSize else 2 * |blocks|;
      pool := pool + [newPoolSize * blockSize];
      Reserve(|blocks| + newPoolSize);
      assert DataOf(blocks) == v.data;
      EmplaceAll(newPoolSize);
      assert v.data + NewBlocks(|v.chunks|, newPoolSize, blockSize) == DataOf(blocks);
      RefillWhenEmpty(v);
    }

    /** The growth loop over the new chunk, the last one of the pool. */
    method EmplaceAll(newPoolSize: nat)
      requires |blocks| + newPoolSize <= capacity && DistinctBlocks(blocks) && 0 < |pool|
      requires free == [] && Linked(blocks, free, freeList)
      modifies this`blocks, this`freeList, this`free
      ensures |blocks| <= capacity && DistinctBlocks(blocks) && Linked(blocks, free, freeList)
      ensures DataOf(blocks) == old(DataOf(blocks)) + NewBlocks(|pool| - 1, newPoolSize, blockSize)
      ensures free == NewIndices(old(|blocks|), newPoolSize)
      ensures forall b :: b in blocks ==> fresh(b) || b in old(blocks)
    {
      hide NewBlocks, NewIndices, Linked;
      ghost var base := |blocks|;
      NoneYet(base, |pool| - 1, blockSize);
      var i := 0;
      while i < newPoolSize
        invariant 0 <= i <= newPoolSize
        invariant |blocks| == base + i
        invariant DistinctBlocks(blocks) && Linked(blocks, free, freeList)
        invariant forall b :: b in blocks ==> fresh(b) || b in old(blocks)
        invariant DataOf(blocks) == old(DataOf(blocks)) + NewBlocks(|pool| - 1, i, blockSize)
        invariant free == NewIndices(base, i)
      {
        OneMoreBlock(base, |pool| - 1, i, blockSize);
        EmplaceFree(Ptr(|pool| - 1, i * blockSize));
        i := i + 1;
      }
    }

    /** Takes the first block off the list: the only dereference of a list node, and the node is in
        the current storage. */
    method PopFree() returns (p: Ptr)
      requires Linked(blocks, free, freeList) && freeList != null
      modifies this`freeList, this`free
      ensures old(free) != [] && p == DataOf(blocks)[old(free)[0]]
      ensures free == old(free)[1..] && Linked(blocks, free, freeList)
    {
      ListedIffFree(blocks, free, freeList);
      LinkedTail(blocks, free, freeList);
      assert freeList in blocks;
      var result := freeList;
      freeList := freeList.next;
      free := free[1..];
      return result.data;
    }

    method Allocate(size: nat) returns (r: Outcome<Ptr>)
      requires Valid()
      modifies this, blocks
      ensures Valid()
      ensures (View(), r) == old(AllocateView(View(), size))
    {
      hide Inv, Grown, Linked, DistinctBlocks, DataOf, Outstanding;
      AllocateHandsOutOneFreshBlock(View(), size);
      GrowKeepsInv(View());
      ListedIffFree(blocks, free, freeList);
      if size > blockSize {
        return Thrown;
      }
      if freeList == null {
        Grow();
      }
      assert View() == old(Refill(View()));
      assert freeList != null by {
        ListedIffFree(blocks, free, freeList);
      }
      var p := PopFree();
      return Ok(p);
    }

    /** Puts block i in front of the free list, whether it is on the list already or not. */
    method PushFree(i: nat)
      requires i < |blocks| && DistinctBlocks(blocks) && Linked(blocks, free, freeList)
      requires FreeIndices(free, |blocks|)
      modifies this`freeList, this`free, blocks
      ensures free == [i] + old(free) && DataOf(blocks) == old(DataOf(blocks))
      ensures i !in old(free) ==> Linked(blocks, free, freeList)
      ensures i in old(free) ==> forall list :: !Linked(blocks, list, freeList)
    {
      ghost var before, head := free, freeList;
      OthersDiffer(blocks, before, i);
      blocks[i].next := freeList;
      hide DistinctBlocks, FreeIndices;
      freeList := blocks[i];
      free := [i] + free;
      assert forall m :: 0 <= m < |before| && before[m] != i ==>
          blocks[before[m]].next == old(blocks[before[m]].next) == At(blocks, before, m + 1);
      if i in before {
        var k :| 0 <= k < |before| && before[k] == i;
        forall list | Linked(blocks, list, freeList) ensures false {
          PushedTwice(blocks, before, k, list);
        }
      } else {
        PushedOnce(blocks, before, i, head);
      }
    }

    /** Any pointer may be passed. An unknown one is refused. A block in use goes to the head of the
        list. A block that is already free is accepted too, and that is exactly when the pool
        breaks: its list never ends. */
    method Deallocate(ptr: Ptr) returns (r: Outcome<()>)
      requires Valid()
      modifies this, blocks
      ensures (View(), r) == old(DeallocateView(View(), ptr))
      ensures Valid() <==> old(IndexOf(DataOf(blocks), ptr) !in free)
      ensures old(IndexOf(DataOf(blocks), ptr) in free) ==> forall list :: !Linked(blocks, list, freeList)
    {
      var blockIdx := 0;
      while blockIdx < |blocks|
        invariant 0 <= blockIdx <= |blocks|
        invariant forall k :: 0 <= k < blockIdx ==> DataOf(blocks)[k] != ptr
      {
        if blocks[blockIdx].data == ptr {
          IndexOfIs(DataOf(blocks), ptr, blockIdx);
          PushFree(blockIdx);
          return Ok(());
        }
        blockIdx := blockIdx + 1;
      }
      IndexOfIs(DataOf(blocks), ptr, |blocks|);
      return Thrown;
    }
  }
}
