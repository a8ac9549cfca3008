/** Counting the blocks of the pool: those in use and those on the free list are all there are. */
module MemoryPoolAccounts {
  import opened MemoryPool

  function IndexSet(n: nat): set<nat> {
    if n == 0 then {} else IndexSet(n - 1) + {n - 1}
  }

  lemma {:induction false} IndexSetIs(n: nat)
    ensures |IndexSet(n)| == n && forall i: nat :: i in IndexSet(n) <==> i < n
  {
    if n > 0 {
      IndexSetIs(n - 1);
    }
  }

  function Without(indices: set<nat>, free: seq<nat>): set<nat> {
    set i | i in indices && i !in free
  }

  lemma {:induction false} IndicesInUse(free: seq<nat>, n: nat)
    requires FreeIndices(free, n)
    ensures |Without(IndexSet(n), free)| + |free| == n
  {
    IndexSetIs(n);
    var all := IndexSet(n);
    if free == [] {
      assert Without(all, free) == all;
    } else {
      PopMembership(free, n, 0);
      IndicesInUse(free[1..], n);
      assert free == [free[0]] + free[1..];
      assert Without(all, free[1..]) == Without(all, free) + {free[0]};
    }
  }

  ghost function Image(data: seq<Ptr>, indices: set<nat>): set<Ptr> {
    set i | i in indices && i < |data| :: data[i]
  }

  lemma {:induction false} DistinctImage(v: PoolState, indices: set<nat>)
    requires Inv(v) && forall i :: i in indices ==> i < |v.data|
    ensures |Image(v.data, indices)| == |indices|
    decreases indices
  {
    if indices != {} {
      var k :| k in indices;
      var rest := indices - {k};
      DistinctImage(v, rest);
      forall i | i in rest ensures v.data[i] != v.data[k] {
        PointersAreUnique(v, i);
        PointersAreUnique(v, k);
      }
      hide Inv;
      assert Image(v.data, indices) == Image(v.data, rest) + {v.data[k]};
    }
  }

  /** No block is lost and none is counted twice: the pointers in use and the free list together
      are all the blocks of the pool. */
  lemma {:induction false} BlocksAreConserved(v: PoolState)
    requires Inv(v)
    ensures |Outstanding(v)| + |v.free| == |v.data|
  {
    var used := Without(IndexSet(|v.data|), v.free);
    IndexSetIs(|v.data|);
    IndicesInUse(v.free, |v.data|);
    DistinctImage(v, used);
    hide Inv;
    assert Outstanding(v) == Image(v.data, used);
  }
}
