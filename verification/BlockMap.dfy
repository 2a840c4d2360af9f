// The block map of block_map.c: which disk block holds each block of a file.
module BlockMaps {
  import opened TreeModel
  import opened TreeSteps
  import opened TreeStore
  import opened TreeSearch
  import opened TreePath
  import opened TreeInsert
  import opened TreeLinks
  import opened TreeRemove
  import opened TreeBorrow
  import opened TreeDelete
  import opened BlockTrees

  // Every key is listed once.
  ghost predicate Single(C: seq<Entry>)
  {
    forall i, j :: 0 <= i < |C| && 0 <= j < |C| && C[i].key == C[j].key ==> i == j
  }

  ghost function Table(C: seq<Entry>): map<nat, nat>
    requires Single(C)
  {
    map i | 0 <= i < |C| :: C[i].key := C[i].data
  }

  lemma TableAt(C: seq<Entry>, i: nat)
    requires Single(C) && i < |C|
    ensures C[i].key in Table(C) && Table(C)[C[i].key] == C[i].data
  {
  }

  lemma TableFind(C: seq<Entry>, k: nat) returns (i: nat)
    requires Single(C) && k in Table(C)
    ensures i < |C| && C[i].key == k && Table(C)[k] == C[i].data
  {
    var j :| 0 <= j < |C| && C[j].key == k;
    i := j;
  }

  lemma {:induction false} SingleRemove(C: seq<Entry>, pos: nat)
    requires Single(C) && pos < |C|
    ensures Single(RemoveAt(C, pos)) && forall i :: 0 <= i < |C| - 1 ==> RemoveAt(C, pos)[i].key != C[pos].key
  {
    var D := RemoveAt(C, pos);
    assert forall i :: 0 <= i < |D| ==> D[i] == C[if i < pos then i else i + 1];
  }

  lemma {:induction false} TableRemove(C: seq<Entry>, pos: nat)
    requires Single(C) && pos < |C|
    ensures Single(RemoveAt(C, pos)) && Table(RemoveAt(C, pos)) == Table(C) - {C[pos].key}
  {
    hide Table, Single;
    var D := RemoveAt(C, pos);
    SingleRemove(C, pos);
    TableAt(C, pos);
    var m, n := Table(D), Table(C) - {C[pos].key};
    forall k: nat
      ensures k in m <==> k in n
      ensures k in m && k in n ==> m[k] == n[k]
    {
      if k in m {
        var i := TableFind(D, k);
        assert RemoveAt(C, pos)[i].key != C[pos].key;
        TableAt(C, if i < pos then i else i + 1);
      } else if k in n {
        var i := TableFind(C, k);
        TableAt(D, if i < pos then i else i - 1);
      }
    }
  }

  lemma {:induction false} SingleInsert(C: seq<Entry>, pos: nat, e: Entry)
    requires Single(C) && pos <= |C| && e.key !in Table(C)
    ensures Single(InsertAt(C, pos, e))
  {
    var D := InsertAt(C, pos, e);
    forall i | 0 <= i < |C|
      ensures C[i].key != e.key
    {
      TableAt(C, i);
    }
    assert forall i :: 0 <= i < |D| && i != pos ==> D[i] == C[if i < pos then i else i - 1];
  }

  lemma {:induction false} TableInsert(C: seq<Entry>, pos: nat, e: Entry)
    requires Single(C) && pos <= |C| && e.key !in Table(C)
    ensures Single(InsertAt(C, pos, e)) && Table(InsertAt(C, pos, e)) == Table(C)[e.key := e.data]
  {
    hide Table, Single;
    var D := InsertAt(C, pos, e);
    SingleInsert(C, pos, e);
    TableAt(D, pos);
    var m, n := Table(D), Table(C)[e.key := e.data];
    forall k: nat
      ensures k in m <==> k in n
      ensures k in m && k in n ==> m[k] == n[k]
    {
      if k in m {
        var i := TableFind(D, k);
        if i != pos {
          TableAt(C, if i < pos then i else i - 1);
        }
      } else if k in n && k != e.key {
        var i := TableFind(C, k);
        TableAt(D, if i < pos then i else i + 1);
      }
    }
  }

  // A walk for key shows the least listed key that is not smaller.
  lemma {:induction false} CeilTable(C: seq<Entry>, pos: nat, key: nat)
    requires Single(C) && Sorted(C) && AtCeil(C, pos, key)
    ensures key in Table(C) <==> pos < |C| && C[pos].key == key
    ensures pos < |C| ==> C[pos].key >= key && C[pos].key in Table(C) && Table(C)[C[pos].key] == C[pos].data
    ensures forall k :: k in Table(C) && k >= key ==> pos < |C| && C[pos].key <= k
  {
    hide AtCeil, Table, Single, Sorted;
    if pos < |C| {
      TableAt(C, pos);
      CeilHere(C, pos, key);
    }
    forall k | k in Table(C) && k >= key
      ensures pos < |C| && C[pos].key <= k && (k == key ==> C[pos].key == key)
    {
      var i := TableFind(C, k);
      CeilKeys(C, pos, key, i);
    }
  }

  lemma CeilHere(C: seq<Entry>, pos: nat, key: nat)
    requires AtCeil(C, pos, key) && pos < |C|
    ensures C[pos].key >= key
  {
    assert CeilAt(C, pos, key, pos);
  }

  lemma CeilKeys(C: seq<Entry>, pos: nat, key: nat, i: nat)
    requires AtCeil(C, pos, key) && Sorted(C) && i < |C| && C[i].key >= key
    ensures pos < |C| && C[pos].key <= C[i].key && (C[i].key == key ==> C[pos].key == key)
  {
    assert CeilAt(C, pos, key, i);
    assert pos < i ==> Le(C, pos, i);
  }

  class BlockMap {
    const tree: BlockTree

    ghost predicate Valid()
      reads this, tree
    {
      tree.Valid() && Single(Contents(tree.tree))
    }

    // Disk block by tree key; block index k has key k + 1.
    ghost function T(): map<nat, nat>
      reads this, tree
      requires Valid()
    {
      Table(Contents(tree.tree))
    }

    constructor (caps: Caps)
      requires CapsOk(caps)
      ensures Valid() && fresh(tree) && T() == map[]
    {
      hide Contents, BlockTree.Valid;
      tree := new BlockTree(caps);
    }

    // block_map_get; 0 if the index is not mapped
    method Get(index: nat) returns (b: nat)
      requires Valid()
      ensures if index + 1 in T() then b == T()[index + 1] > 0 else b == 0
    {
      hide Contents, BlockTree.Valid, BlockTree.Readable, BlockTree.Rests, AtCeil, Table, Single, Sorted;
      ListOrder(tree);
      var path, pos := tree.Ceiling(index + 1);
      CeilTable(Contents(tree.tree), pos, index + 1);
      b := if PathKey(path) == index + 1 then path.data else 0;
    }

    // block_map_set; block 0 removes the entry
    method Set(index: nat, block: nat)
      requires Valid()
      modifies tree
      ensures Valid() && T() == if block > 0 then old(T())[index + 1 := block] else old(T()) - {index + 1}
      ensures Kept(old(tree.store), old(tree.owned), tree.store, tree.owned)
    {
      hide Contents, BlockTree.Valid, BlockTree.Readable, Table, Single, Kept;
      ghost var C, st, own := Contents(tree.tree), tree.store, tree.owned;
      KeptSelf(st, own);
      var b := Get(index);
      if b != 0 {
        ghost var i := TableFind(C, index + 1);
        assert Entry(index + 1, b) == C[i];
        TreeUse(tree, C[i]);
        var pos := tree.Remove(index + 1, b);
        TableRemove(C, pos);
        C, st, own := Contents(tree.tree), tree.store, tree.owned;
      }
      if block > 0 {
        var pos := tree.Insert(index + 1, block);
        TableInsert(C, pos, Entry(index + 1, block));
        KeptTwice(old(tree.store), old(tree.owned), st, own, tree.store, tree.owned);
      }
    }

    // block_map_truncate: unmap everything from index on; returns what was unmapped, to be freed.
    method Truncate(index: nat) returns (out: map<nat, nat>)
      requires Valid()
      modifies tree
      ensures Valid() && T().Keys !! out.Keys && T() + out == old(T())
      ensures (forall k :: k in T() ==> k <= index) && (forall k :: k in out ==> k > index)
      ensures index == 0 && tree.root != 0 ==> tree.depth == 1
      ensures Kept(old(tree.store), old(tree.owned), tree.store, tree.owned)
    {
      hide Contents, BlockTree.Valid, BlockTree.Readable, BlockTree.Rests, AtCeil, Table, Single, Sorted, Kept;
      ghost var m := T();
      KeptSelf(tree.store, tree.owned);
      out := map[];
      var at := index + 1;
      while true
        invariant Valid() && at > index && T().Keys !! out.Keys && T() + out == m
        invariant (forall k :: k in T() ==> k <= index || k >= at) && (forall k :: k in out ==> k > index)
        invariant Kept(old(tree.store), old(tree.owned), tree.store, tree.owned)
        decreases |Contents(tree.tree)|, if at in T() then 0 else 1
      {
        ghost var C, st, own := Contents(tree.tree), tree.store, tree.owned;
        ListOrder(tree);
        var path, pos := tree.Ceiling(at);
        CeilTable(C, pos, at);
        var key := PathKey(path);
        if key == 0 {
          if index == 0 {
            NoneLeft(C);
            EmptyMap(tree);
          }
          break;
        }
        if path.data == 0 {
          at := key;
        } else {
          assert C[pos] == Entry(key, path.data);
          TreeUse(tree, C[pos]);
          var p := tree.Remove(key, path.data);
          TableRemove(C, p);
          out := out[key := path.data];
          KeptTwice(old(tree.store), old(tree.owned), st, own, tree.store, tree.owned);
        }
      }
    }
  }

  lemma NoneLeft(C: seq<Entry>)
    requires Sorted(C) && Single(C) && forall k :: k in Table(C) ==> k == 0
    ensures C == []
  {
    if C != [] {
      TableAt(C, 0);
    }
  }

  // A tree without entries is a root leaf.
  lemma EmptyMap(t: BlockTree)
    requires t.Valid()
    ensures t.root != 0 && Contents(t.tree) == [] ==> t.depth == 1
  {
    if t.root != 0 && t.tree.Node? {
      assert Contents(t.tree) == Contents(t.tree.cs[0]) + Flat(t.tree.cs[1..]);
      assert Contents(t.tree.cs[0]) != [];
    }
  }

  lemma ListOrder(t: BlockTree)
    requires t.Valid()
    ensures t.Readable() && Sorted(Contents(t.tree))
            && forall i :: 0 <= i < |Contents(t.tree)| ==> Contents(t.tree)[i].data > 0
  {
    t.ValidReadable();
  }

  lemma TreeUse(t: BlockTree, e: Entry)
    requires t.Valid() && e in Contents(t.tree)
    ensures t.root != 0 && e.key > 0 && e.data > 0
  {
    ListOrder(t);
  }
}
