// The ring queue of pending set updates in block_allocator.c.
module AllocQueue {

  // A pending allocation or free; tmp names the set it is for.
  datatype Item = Item(block: nat, tmp: bool, free: bool, removed: bool)

  // Number k is the live item for block b.
  predicate LiveAt(items: seq<Item>, k: nat, b: nat)
    requires k < |items|
  {
    !items[k].removed && items[k].block == b
  }

  ghost predicate Live(items: seq<Item>, b: nat)
  {
    exists k :: 0 <= k < |items| && LiveAt(items, k, b)
  }

  // At most one live item per block.
  ghost predicate Distinct(items: seq<Item>)
  {
    forall i, j, b :: 0 <= i < |items| && 0 <= j < |items| && LiveAt(items, i, b) && LiveAt(items, j, b) ==> i == j
  }

  // The queue after an opposite request for the block of item k: the item is taken out, unless it
  // is the head that is being applied; then the request has to be queued as well.
  function Requested(items: seq<Item>, k: int, updating: bool, x: Item): seq<Item>
    requires -1 <= k < |items|
  {
    if k < 0 then items + [x]
    else if k > 0 || !updating then items[k := items[k].(removed := true)]
    else items[k := items[k].(removed := true)] + [x]
  }

  class Queue {
    const entry: array<Item>
    var head: nat
    var tail: nat
    var updating: bool

    ghost predicate Valid()
      reads this, entry
    {
      entry.Length >= 2 && head < entry.Length && tail < entry.Length && Distinct(Items())
    }

    // block_allocator_queue_count
    function Count(): nat
      reads this
      requires head < entry.Length && tail < entry.Length
    {
      if tail >= head then tail - head else tail + entry.Length - head
    }

    // Where item number k is kept.
    function Slot(k: nat): nat
      reads this
      requires head < entry.Length
    {
      if head + k < entry.Length then head + k else head + k - entry.Length
    }

    // The queued items, oldest first.
    ghost function Items(): seq<Item>
      reads this, entry
      requires head < entry.Length && tail < entry.Length
    {
      if head <= tail then entry[head..tail] else entry[head..] + entry[..tail]
    }

    constructor (n: nat)
      requires n >= 2
      ensures Valid() && fresh(entry) && Items() == [] && !updating && entry.Length == n
    {
      entry := new Item[n](i => Item(0, false, false, true));
      head, tail, updating := 0, 0, false;
    }

    // block_allocator_queue_empty
    predicate IsEmpty()
      reads this
    {
      head == tail
    }

    function Succ(i: nat): (j: nat)
      requires i < entry.Length
      ensures j < entry.Length
    {
      if i + 1 == entry.Length then 0 else i + 1
    }

    // block_allocator_queue_find
    method Find(block: nat) returns (index: int, ghost k: int)
      requires Valid()
      ensures -1 <= k < |Items()| && (k < 0 <==> index < 0)
      ensures k < 0 ==> !Live(Items(), block)
      ensures k >= 0 ==> LiveAt(Items(), k, block) && index == Slot(k)
    {
      var i := head;
      ghost var n: nat := 0;
      while i != tail
        invariant n <= Count() && i == Slot(n) && (n == Count() <==> i == tail)
        invariant forall j :: 0 <= j < n ==> !LiveAt(Items(), j, block)
        decreases Count() - n
      {
        assert Items()[n] == entry[i];
        if !entry[i].removed && block == entry[i].block {
          return i, n;
        }
        i, n := Succ(i), n + 1;
      }
      return -1, -1;
    }

    method MarkRemoved(index: nat, ghost k: nat)
      requires Valid() && k < |Items()| && index == Slot(k) && !Items()[k].removed
      modifies entry
      ensures Valid() && Items() == old(Items())[k := old(Items())[k].(removed := true)]
              && !Live(Items(), old(Items())[k].block)
    {
      ghost var items := Items();
      DistinctRemoved(items, k);
      entry[index] := entry[index].(removed := true);
      assert Items() == items[k := items[k].(removed := true)];
    }

    // block_allocator_queue_add; ok is false where the source asserts that the ring is not full
    // and that an item found for the block is of the same kind.
    method Add(block: nat, tmp: bool, free: bool) returns (ok: bool, ghost k: int)
      requires Valid()
      requires forall k :: 0 <= k < |Items()| && LiveAt(Items(), k, block) ==> Items()[k].free != free
      modifies this, entry
      ensures Valid() && updating == old(updating) && -1 <= k < |old(Items())|
      ensures if k < 0 then !Live(old(Items()), block) else LiveAt(old(Items()), k, block)
      ensures ok ==> Items() == Requested(old(Items()), k, updating, Item(block, tmp, free, false)) && !IsEmpty()
      ensures !ok ==> |Items()| == |old(Items())| && (k >= 0 && old(Items())[k].tmp != tmp ==> Items() == old(Items()))
      ensures ok <==>
                && (k >= 0 ==> old(Items())[k].tmp == tmp)
                && (k < 0 || (k == 0 && updating) ==> |old(Items())| + 1 < entry.Length)
    {
      hide Distinct;
      var index;
      index, k := Find(block);
      ok := true;
      if index >= 0 {
        assert Items()[k] == entry[index];
        if entry[index].tmp != tmp {
          return false, k;
        }
        MarkRemoved(index, k);
        if index != head || !updating {
          return;
        }
      }
      ok := Push(Item(block, tmp, free, false));
    }

    // A new last item; the ring holds one less than its length.
    method Push(x: Item) returns (ok: bool)
      requires Valid() && !Live(Items(), x.block)
      modifies this, entry
      ensures Valid() && updating == old(updating) && Items() == if ok then old(Items()) + [x] else old(Items())
      ensures ok <==> |old(Items())| + 1 < entry.Length
    {
      var newTail := Succ(tail);
      if newTail == head {
        return false;
      }
      ghost var items := Items();
      DistinctAdded(items, x);
      hide Distinct, Live;
      entry[tail] := x;
      tail := newTail;
      assert Items() == items + [x];
      ok := true;
    }

    // block_allocator_queue_add_dummy
    method AddDummy()
      requires Valid() && IsEmpty()
      modifies this, entry
      ensures Valid() && !IsEmpty() && updating == old(updating) && |Items()| == 1 && Items()[0].removed
    {
      entry[tail] := entry[tail].(removed := true);
      tail := Succ(tail);
    }

    // block_allocator_queue_peek_head
    function PeekHead(): (e: Item)
      reads this, entry
      requires Valid() && !IsEmpty()
      ensures |Items()| > 0 && e == Items()[0]
    {
      entry[head]
    }

    // block_allocator_queue_remove_head
    method RemoveHead()
      requires Valid() && !IsEmpty()
      modifies this
      ensures Valid() && updating == old(updating) && Items() == old(Items())[1..]
    {
      ghost var items := Items();
      head := Succ(head);
      assert Items() == items[1..];
      DistinctTail(items);
    }

    // block_allocator_queue_find_free_block: the first block at or after `from` that is not
    // queued as allocated.
    method FindFreeBlock(from: nat) returns (block: nat)
      requires Valid()
      ensures block >= from && !QueuedAlloc(Items(), block)
      ensures forall x :: from <= x < block ==> QueuedAlloc(Items(), x)
    {
      block := from;
      ghost var limit := BlockLimit(Items());
      while true
        invariant block >= from
        invariant forall x :: from <= x < block ==> QueuedAlloc(Items(), x)
        decreases if block < limit then limit - block else 0
      {
        var index, k := Find(block);
        if index < 0 || entry[index].free {
          return;
        }
        assert Items()[k] == entry[index];
        block := block + 1;
      }
    }
  }

  // Block b is queued as allocated.
  ghost predicate QueuedAlloc(items: seq<Item>, b: nat)
  {
    exists k :: 0 <= k < |items| && LiveAt(items, k, b) && !items[k].free
  }

  lemma BlockLimit(items: seq<Item>) returns (m: nat)
    ensures forall k :: 0 <= k < |items| ==> items[k].block < m
  {
    if items == [] {
      m := 0;
    } else {
      var m' := BlockLimit(items[1..]);
      m := if m' > items[0].block then m' else items[0].block + 1;
      forall k | 0 <= k < |items|
        ensures items[k].block < m
      {
        assert k > 0 ==> items[k] == items[1..][k - 1];
      }
    }
  }

  lemma DistinctRemoved(items: seq<Item>, k: nat)
    requires Distinct(items) && k < |items|
    ensures Distinct(items[k := items[k].(removed := true)])
    ensures !items[k].removed ==> !Live(items[k := items[k].(removed := true)], items[k].block)
  {
    var D := items[k := items[k].(removed := true)];
    forall i, j, b | 0 <= i < |D| && 0 <= j < |D| && LiveAt(D, i, b) && LiveAt(D, j, b)
      ensures i == j
    {
      assert LiveAt(items, i, b) && LiveAt(items, j, b);
    }
    forall i | 0 <= i < |D|
      ensures !items[k].removed ==> !LiveAt(D, i, items[k].block)
    {
      assert !items[k].removed ==> LiveAt(items, k, items[k].block);
      assert LiveAt(D, i, items[k].block) ==> LiveAt(items, i, items[k].block);
    }
  }

  lemma DistinctAdded(items: seq<Item>, x: Item)
    requires Distinct(items) && (x.removed || !Live(items, x.block))
    ensures Distinct(items + [x])
  {
    var D := items + [x];
    forall i, j, b | 0 <= i < |D| && 0 <= j < |D| && LiveAt(D, i, b) && LiveAt(D, j, b)
      ensures i == j
    {
      assert i < |items| ==> LiveAt(items, i, b);
      assert j < |items| ==> LiveAt(items, j, b);
    }
  }

  lemma DistinctTail(items: seq<Item>)
    requires Distinct(items) && items != []
    ensures Distinct(items[1..])
  {
    var D := items[1..];
    forall i, j, b | 0 <= i < |D| && 0 <= j < |D| && LiveAt(D, i, b) && LiveAt(D, j, b)
      ensures i == j
    {
      assert LiveAt(items, i + 1, b) && LiveAt(items, j + 1, b);
    }
  }

  lemma LiveAppend(items: seq<Item>, x: Item, b: nat)
    ensures Live(items + [x], b) <==> Live(items, b) || (!x.removed && x.block == b)
  {
    var D := items + [x];
    if Live(items, b) {
      var k :| 0 <= k < |items| && LiveAt(items, k, b);
      assert LiveAt(D, k, b);
    }
    if !x.removed && x.block == b {
      assert LiveAt(D, |items|, b);
    }
    if Live(D, b) {
      var k :| 0 <= k < |D| && LiveAt(D, k, b);
      assert k < |items| ==> LiveAt(items, k, b);
    }
  }

  lemma LiveRemoved(items: seq<Item>, k: nat, b: nat)
    requires k < |items| && b != items[k].block
    ensures Live(items[k := items[k].(removed := true)], b) <==> Live(items, b)
  {
    var D := items[k := items[k].(removed := true)];
    if Live(items, b) {
      var j :| 0 <= j < |items| && LiveAt(items, j, b);
      assert LiveAt(D, j, b);
    }
    if Live(D, b) {
      var j :| 0 <= j < |D| && LiveAt(D, j, b);
      assert LiveAt(items, j, b);
    }
  }

  lemma LiveTail(items: seq<Item>, b: nat)
    requires items != []
    ensures Live(items, b) <==> LiveAt(items, 0, b) || Live(items[1..], b)
  {
    var D := items[1..];
    if Live(items, b) {
      var j :| 0 <= j < |items| && LiveAt(items, j, b);
      assert j > 0 ==> LiveAt(D, j - 1, b);
    }
    if Live(D, b) {
      var j :| 0 <= j < |D| && LiveAt(D, j, b);
      assert LiveAt(items, j + 1, b);
    }
  }

  lemma TailDead(items: seq<Item>)
    requires Distinct(items) && items != [] && !items[0].removed
    ensures !Live(items[1..], items[0].block)
  {
    var tail := items[1..];
    forall j | 0 <= j < |tail|
      ensures !LiveAt(tail, j, items[0].block)
    {
      assert LiveAt(items, 0, items[0].block);
      assert LiveAt(tail, j, items[0].block) ==> LiveAt(items, j + 1, items[0].block);
    }
  }
}
