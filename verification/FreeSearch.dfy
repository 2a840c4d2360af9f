// find_free_block of block_allocator.c: the search for a block nobody uses.
module FreeSearch {
  import opened RangeModel
  import opened TreeModel
  import opened AllocQueue
  import opened BlockSets

  // Block x is committed as free, in no active transaction's allocated set and not queued as allocated.
  ghost predicate Available(free: iset<nat>, taken: seq<iset<nat>>, items: seq<Item>, x: nat)
  {
    x in free && (forall i :: 0 <= i < |taken| ==> x !in taken[i]) && !QueuedAlloc(items, x)
  }

  method FindFreeBlock(free: BlockSet, sets: seq<BlockSet>, q: Queue, min: nat, ghost taken: seq<iset<nat>>)
    returns (block: nat)
    requires free.Valid() && q.Valid() && !QueuedAlloc(q.Items(), 0)
    requires |taken| == |sets| && forall i :: 0 <= i < |sets| ==> sets[i].Readable() && taken[i] == sets[i].Blocks()
    ensures block == 0 ==> forall x :: x >= min ==> !Available(free.Blocks(), taken, q.Items(), x)
    ensures block != 0 ==> block >= min && Available(free.Blocks(), taken, q.Items(), block)
    ensures block != 0 ==> forall x :: min <= x < block ==> !Available(free.Blocks(), taken, q.Items(), x)
  {
    ghost var F, I := free.Blocks(), q.Items();
    ghost var limit := free.Limit();
    ZeroFree(free);
    forall i | 0 <= i < |sets|
      ensures 0 !in taken[i]
    {
      ZeroFree(sets[i]);
    }
    block := min;
    while true
      invariant min <= block
      invariant forall x :: min <= x < block ==> !Available(F, taken, I, x)
      decreases if block < limit then limit - block else 0
    {
      var from := block;
      block := free.FindNextBlock(from, true);
      if block < from {
        return 0;
      }
      var minBlock := block;
      block := SkipTaken(sets, q, minBlock, taken, F);
      if block == minBlock {
        return;
      }
    }
  }

  // The first block at or after `from` that passes every allocated set and the queue, one by one.
  method SkipTaken(sets: seq<BlockSet>, q: Queue, from: nat, ghost taken: seq<iset<nat>>, ghost F: iset<nat>)
    returns (block: nat)
    requires q.Valid()
    requires |taken| == |sets| && forall i :: 0 <= i < |sets| ==> sets[i].Readable() && taken[i] == sets[i].Blocks()
    ensures block >= from && forall x :: from <= x < block ==> !Available(F, taken, q.Items(), x)
    ensures block == from <==> !QueuedAlloc(q.Items(), from) && forall i :: 0 <= i < |taken| ==> from !in taken[i]
  {
    block := from;
    for k := 0 to |sets|
      invariant block >= from && forall x :: from <= x < block ==> !Available(F, taken, q.Items(), x)
      invariant block == from <==> forall i :: 0 <= i < k ==> from !in taken[i]
    {
      var b := sets[k].FindNextBlock(block, false);
      assert forall x :: block <= x < b ==> x in taken[k];
      block := b;
    }
    block := q.FindFreeBlock(block);
  }

  lemma ZeroFree(s: BlockSet)
    requires s.Readable()
    ensures 0 !in s.Blocks()
  {
    NestedPositive(Contents(s.ranges.tree));
  }
}
