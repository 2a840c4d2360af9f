// The B+ tree of block_tree.c: nodes live in numbered blocks, an update works along a path
// from the root, and a block the transaction does not own is copied before it is written.
module BlockTrees {
  import opened TreeModel
  import opened TreeSteps
  import opened TreeStore
  import opened TreeSearch
  import opened TreePath
  import opened TreeLinks
  import opened TreeWalk
  import opened TreeSplit
  import opened TreeInsert
  import opened TreeMerge
  import opened TreeRemove
  import opened TreeRebalance
  import opened TreeKeys
  import opened TreeShort
  import opened TreeBorrow
  import opened TreeDelete
  import opened TreeUpdate

  // Some block number outside any finite set is non-zero.
  lemma FreshExists(s: set<nat>)
    ensures exists b: nat :: b != 0 && b !in s
  {
    var m := Bound(s);
    assert m + 1 !in s;
  }

  lemma Bound(s: set<nat>) returns (m: nat)
    ensures forall x :: x in s ==> x <= m
  {
    if s == {} {
      m := 0;
    } else {
      var x :| x in s;
      var m' := Bound(s - {x});
      m := if x > m' then x else m';
      forall y | y in s
        ensures y <= m
      {
        assert y != x ==> y in s - {x};
      }
    }
  }

  // The deepest node on a path that was entered through a non-zero index is at level j - 1.
  method LowLevel(us: seq<PathEntry>) returns (j: nat)
    ensures j <= |us| && AllZero(Idx(us)[j..]) && (j > 0 ==> us[j - 1].index > 0)
  {
    j := |us|;
    while j > 0 && us[j - 1].index == 0
      invariant j <= |us| && AllZero(Idx(us)[j..])
    {
      IdxSlice(us, j);
      assert us[..j][j - 1] == us[j - 1];
      assert Idx(us)[j - 1..] == [Idx(us)[j - 1]] + Idx(us)[j..];
      j := j - 1;
    }
  }

  class BlockTree {
    const caps: Caps
    var store: Store            // contents of the blocks in use
    var owned: set<nat>         // blocks allocated by this transaction, writable in place
    var root: nat               // 0 while the tree has no root block
    var inserting: Inserting
    ghost var tree: Tree
    ghost var depth: nat
    ghost var blocks: set<nat>  // blocks allocated to this tree

    ghost predicate Stored()
      reads this
    {
      inserting == NONE && Laid(Now(), root, tree, caps)
    }

    // Between operations the tree is absent or a good B+ tree.
    ghost predicate Valid()
      reads this
    {
      if root == 0
      then CapsOk(caps) && 0 !in store && owned == {} && Fits(store, caps) && inserting == NONE
           && tree == Leaf([]) && depth == 0 && blocks == {}
      else Stored() && Good(tree, depth, caps)
    }

    // The entries can be read: between operations, and where a split allocates blocks while an
    // entry is only pending. `tree` includes the pending entry.
    ghost predicate Readable()
      reads this
    {
      State().Holds(tree, depth) && Keyed(tree)
    }

    lemma ValidReadable()
      requires Valid()
      ensures Readable() && State().V() == store
    {
      if root != 0 {
        StateHolds(Now(), root, tree, depth, caps);
      }
    }

    function State(): TreeState
      reads this
    {
      TreeState(store, caps, root, inserting)
    }

    ghost function Now(): Layout
      reads this
    {
      Layout(store, owned, blocks)
    }

    // block_tree_block_dirty: write rec over block b, or to a fresh block if b is not owned.
    method WriteNode(b: nat, rec: NodeRec) returns (nb: nat)
      requires 0 !in store && b in store && owned <= store.Keys && Fits(store, caps) && Size(rec) <= Cap(rec, caps)
      modifies this`store, this`owned, this`blocks
      ensures Fits(store, caps)
      ensures if b in old(owned) then nb == b else nb != 0 && nb !in old(store)
      ensures store == old(store)[nb := rec] && owned == old(owned) + {nb}
      ensures blocks == old(blocks) - {b} + {nb}
    {
      if b in owned {
        nb := b;
      } else {
        FreshExists(store.Keys);
        nb :| nb != 0 && nb !in store;
      }
      store := store[nb := rec];
      owned := owned + {nb};
      blocks := blocks - {b} + {nb};
    }

    // block_tree_path_put_dirty: write the leaf at the end of path es and relink its ancestors,
    // copying every node on the way that is not owned.
    method PutLeaf(es: seq<PathEntry>, x: seq<Entry>) returns (fs: seq<PathEntry>)
      requires Stored() && Linked(store, root, es) && Along(tree, Idx(es[..|es| - 1]))
               && At(tree, Idx(es[..|es| - 1])).Leaf?
      requires |x| <= caps.leaf
      modifies this`store, this`owned, this`blocks, this`root, this`tree
      ensures Stored() && tree == Replace(old(tree), Idx(es[..|es| - 1]), Leaf(x))
      ensures |fs| == |es| && forall k :: 0 <= k < |es| ==>
                fs[k] == es[k].(block := fs[k].block) && fs[k].block in owned
      ensures Linked(store, root, fs) && Kept(old(store), old(owned), store, owned)
    {
      hide Rep, Foot;
      ghost var x0 := Now();
      ghost var t0, t1 := tree, Leaf(x);
      var i := |es| - 1;
      ReadyLeaf(x0, root, tree, es);
      var b := WriteNode(es[i].block, LeafRec(x));
      CopyStart(x0, root, t0, es, x, Now(), b);
      fs := es[i := es[i].(block := b)];
      while i > 0
        invariant Copying(x0, t0, es, Leaf(x), i, Now(), fs, t1)
        invariant root == old(root) && tree == t0 && Fits(store, caps)
      {
        ghost var y := Now();
        CopyNode(x0, root, t0, es, Leaf(x), i, y, fs, t1);
        var e := es[i - 1];
        var r := store[e.block];
        var rec := InnerRec(r.ks, r.kids[e.index := fs[i].block]);
        b := WriteNode(e.block, rec);
        CopyStep(x0, root, t0, es, Leaf(x), i, y, fs, t1, rec, Now(), b);
        t1 := Node(At(t0, Idx(es[..i - 1])).ks, At(t0, Idx(es[..i - 1])).cs[e.index := t1]);
        fs := fs[i - 1 := e.(block := b)];
        i := i - 1;
      }
      CopyDone(x0, root, t0, es, Leaf(x), Now(), fs, t1);
      root := fs[0].block;
      tree := t1;
    }

    // A block for a split. The allocator may search the tree, so it must be readable here, and it
    // already reads as the list of entries that the insert ends with.
    method Allocate(taken: set<nat>, ghost C: seq<Entry>) returns (b: nat)
      requires Readable() && Contents(tree) == C
      ensures b != 0 && b !in store && b !in taken
    {
      FreshExists(store.Keys + taken);
      b :| b != 0 && b !in store && b !in taken;
    }

    // block_tree_node_split: divide the full node at the end of es, together with the pending
    // entry, over two blocks; the parent gets the new child and may have to be split in turn.
    method Split(es: seq<PathEntry>, ap: Inserting)
      requires Pending(Now(), root, tree, depth, caps, es, ap) && inserting == NONE && root != 0
      modifies this
      ensures Valid() && root != 0 && Contents(tree) == old(Contents(tree))
      ensures Kept(old(store), old(owned), store, owned)
      decreases |es|
    {
      PendingHolds(Now(), root, tree, depth, caps, es, ap);
      inserting := ap;
      ghost var C := Contents(tree);
      var right := Allocate({}, C);
      if |es| == 1 {
        var left := Allocate({right}, C);
        inserting := NONE;
        GrowRoot(es, ap, left, right);
      } else {
        inserting := NONE;
        var over := DivideNode(es, ap, right);
        if over.block != 0 {
          Split(es[..|es| - 1], over);
        }
      }
    }

    // The root is full: its halves move to blocks left and right, its block becomes their parent.
    method GrowRoot(es: seq<PathEntry>, ap: Inserting, left: nat, right: nat)
      requires Pending(Now(), root, tree, depth, caps, es, ap) && inserting == NONE && root != 0 && |es| == 1
      requires left != right && left !in store && right !in store && left != 0 && right != 0
      modifies this
      ensures Valid() && root == old(root) && depth == old(depth) + 1 && Contents(tree) == old(Contents(tree))
      ensures Kept(old(store), old(owned), store, owned)
    {
      hide Pending, Laid, Good, Contents, HalfLeft, HalfRight, HalfKey;
      ghost var x := Now();
      PendingHolds(x, root, tree, depth, caps, es, ap);
      var full := Append(store[ap.block], ap);
      store := store[left := HalfLeft(full, caps)][right := HalfRight(full, caps)]
        [ap.block := InnerRec([HalfKey(full, caps)], [left, right])];
      owned, blocks := owned + {left, right}, blocks + {left, right};
      tree := SplitTop(x, root, tree, depth, caps, es, ap, left, right, Now());
      depth := depth + 1;
    }

    // A full node below the root: its right half moves to block right, which the parent gets as
    // a child. The parent's own overflow, if any, is returned.
    method DivideNode(es: seq<PathEntry>, ap: Inserting, right: nat) returns (over: Inserting)
      requires Pending(Now(), root, tree, depth, caps, es, ap) && inserting == NONE && root != 0 && |es| > 1
      requires right !in store && right != 0
      modifies this
      ensures root == old(root) && inserting == NONE && Contents(tree) == old(Contents(tree))
      ensures over.block == 0 ==> Valid()
      ensures over.block != 0 ==> Pending(Now(), root, tree, depth, caps, es[..|es| - 1], over) == true
      ensures Kept(old(store), old(owned), store, owned)
    {
      hide Pending, Laid, Good, Contents, HalfLeft, HalfRight, HalfKey;
      ghost var x := Now();
      PendingDivisible(x, root, tree, depth, caps, es, ap);
      var full, parent := Append(store[ap.block], ap), es[|es| - 2];
      var rec := AddChild(store[parent.block], parent.index, HalfKey(full, caps), right);
      store := store[ap.block := HalfLeft(full, caps)][right := HalfRight(full, caps)];
      owned, blocks := owned + {right}, blocks + {right};
      ghost var st := store[parent.block := rec];
      assert st == SplitStore(x.st, es, ap, caps, right);
      if |rec.ks| <= caps.inner {
        store := store[parent.block := rec];
        over := NONE;
        tree := SplitDone(x, root, tree, depth, caps, es, ap, right, Now());
      } else {
        var n := |rec.ks| - 1;
        store := store[parent.block := InnerRec(rec.ks[..n], rec.kids[..n + 1])];
        over := Inserting(parent.block, rec.ks[n], rec.kids[n + 1], 0);
        assert store == st[parent.block := InnerRec(rec.ks[..n], rec.kids[..n + 1])];
        tree := SplitOver(x, root, tree, depth, caps, es, ap, right, st, rec, Now(), over);
      }
    }

    // The tree's first block, an empty leaf.
    method NewRoot()
      requires Valid() && root == 0
      modifies this
      ensures Valid() && root != 0 && tree == old(tree) && Kept(old(store), old(owned), store, owned)
    {
      FreshExists(store.Keys);
      var b :| b != 0 && b !in store;
      root := b;
      store := store[root := LeafRec([])];
      owned, blocks, depth := owned + {root}, {root}, 1;
    }

    // block_tree_insert_block_mac
    method Insert(key: nat, data: nat) returns (ghost pos: nat)
      requires Valid() && key > 0 && data > 0
      modifies this
      ensures Valid() && root != 0
      ensures AtCeil(old(Contents(tree)), pos, key)
      ensures Contents(tree) == InsertAt(old(Contents(tree)), pos, Entry(key, data))
      ensures Kept(old(store), old(owned), store, owned)
    {
      hide Laid, Good, Contents, AtCeil, Walked, FullPath, Level, Separated, Sorted, Filled, OverAt, Pending, Replace,
        Along, At, Linked, Kept, LeafAt, Keyed;
      KeptSelf(store, owned);
      if root == 0 {
        NewRoot();
      }
      LaidRoot(Now(), root, tree, caps);
      ghost var st, own, t := store, owned, tree;
      StateHolds(Now(), root, tree, depth, caps);
      var path := Walk(State(), key, false, tree, depth);
      WalkedParts(store, root, tree, depth, path, key);
      var es, e := path.entries, Entry(key, data);
      pos := Pos(tree, path);
      ghost var t' := WalkSlot(Now(), root, tree, depth, caps, path, e);
      var y := InsertAt(store[es[|es| - 1].block].es, es[|es| - 1].index, e);
      if |y| <= caps.leaf {
        es := PutLeaf(es, y);
        LaidRoot(Now(), root, tree, caps);
        KeptTwice(old(store), old(owned), st, own, store, owned);
      } else {
        es := PutLeaf(es, y[..caps.leaf]);
        LaidRoot(Now(), root, tree, caps);
        KeptTwice(old(store), old(owned), st, own, store, owned);
        var ap := Inserting(es[|es| - 1].block, y[caps.leaf].key, 0, y[caps.leaf].data);
        PutPending(Now(), root, t, depth, caps, path.entries, es, y, ap, t', tree);
        tree, st, own := t', store, owned;
        Split(es, ap);
        KeptTwice(old(store), old(owned), st, own, store, owned);
      }
    }

    // block_tree_update_key: set the key left of the position us leads to, in the deepest
    // node entered through a non-zero index; a leftmost position has no such key.
    method UpdateKey(us: seq<PathEntry>, k: nat) returns (vs: seq<PathEntry>)
      requires Stored() && Level(tree, depth) && Along(tree, Idx(us)) && (us != [] ==> Linked(store, root, us))
      requires OwnedPath(owned, us) && Hints(store, us)
      modifies this`store, this`tree
      ensures Stored() && tree == SetLow(old(tree), Idx(us), k)
      ensures SameLinks(old(store), store) && SamePath(us, vs) && Hints(store, vs)
      ensures Kept(old(store), old(owned), store, owned)
    {
      hide Laid, Level, Along, Hints, Linked, SetLow;
      var j := LowLevel(us);
      vs := us;
      if j == 0 {
        assert Idx(us)[j..] == Idx(us);
        SetLowZero(tree, Idx(us), k);
        return;
      }
      KeyNode(Now(), root, tree, depth, caps, us, j);
      var b, i := us[j - 1].block, us[j - 1].index;
      ghost var x := Now();
      store := store[b := InnerRec(store[b].ks[i - 1 := k], store[b].kids)];
      vs := us[j - 1 := us[j - 1].(prevKey := k)];
      KeyWritten(x, root, tree, depth, caps, us, j, k, Now());
      HintsKept(x, root, tree, caps, us, j, k, store, vs);
      tree := SetLow(tree, Idx(us), k);
    }

    // block_tree_node_merge: the node at the end of es is one entry short. It takes an entry from
    // a sibling that can spare one, or is merged with the sibling, which costs the parent a key.
    method Rebalance(es: seq<PathEntry>, ghost t0: Tree)
      requires inserting == NONE && Short(Now(), root, tree, t0, depth, caps, es)
      modifies this
      ensures Valid() && root != 0 && Contents(tree) == old(Contents(tree))
      ensures Kept(old(store), old(owned), store, owned)
      decreases |es|, 1
    {
      hide Short, Scene, Laid, Good, Contents, Kept, Family, Above, Shrunk;
      ghost var q, n, sb0 := SceneOf(Now(), root, tree, t0, depth, caps, es);
      SceneRecs(Now(), root, tree, t0, depth, caps, es, q, n, sb0);
      var e := es[|es| - 2];
      var sb := store[e.block].kids[Sibling(e.index)];
      if Size(store[sb]) > Cap(store[sb], caps) / 2 {
        if e.index == 0 {
          BorrowFirst(es, sb, t0, q, n);
        } else {
          BorrowLast(es, sb, t0, q, n);
        }
      } else {
        var fs := Merge(es, sb, t0, q, n);
        ghost var st, own := store, owned;
        RemoveInternal(fs);
        KeptTwice(old(store), old(owned), st, own, store, owned);
      }
    }

    // The leftmost child takes the first entry of its right sibling.
    method BorrowFirst(es: seq<PathEntry>, sb: nat, ghost t0: Tree, ghost q: seq<nat>, ghost n: Tree)
      requires inserting == NONE && Scene(Now(), root, tree, t0, depth, caps, es, q, n, sb)
      requires es[|es| - 2].index == 0 && Size(store[sb]) > Cap(store[sb], caps) / 2 && Above(n.cs[1], caps)
      modifies this
      ensures Valid() && root != 0 && Contents(tree) == old(Contents(tree))
      ensures Kept(old(store), old(owned), store, owned)
    {
      hide Scene, Laid, Along, Fits, Good, Contents, SetLow, Mended, TakeFirst, Linked, Hints, Level, Above, OwnedPath,
        SamePath, SameLinks;
      ghost var x := Now();
      SceneRecs(x, root, tree, t0, depth, caps, es, q, n, sb);
      var e, b := es[|es| - 2], es[|es| - 1].block;
      var parent, us := store[e.block], es[..|es| - 2];
      var y := TakeFirst(store[b], e.nextKey, store[sb]);
      TakeFirstSize(store[b], e.nextKey, store[sb], y);
      var nb := WriteNode(sb, y.r);
      store := store[b := y.l][e.block := InnerRec(parent.ks[0 := y.k], parent.kids[..0] + [b, nb] + parent.kids[2..])];
      ghost var u, w := BorrowedFirst(x, root, tree, t0, depth, caps, es, q, n, sb, y, nb, Now());
      tree := u;
      MendedParts(Now(), root, tree, depth, caps, us);
      ghost var st, own := store, owned;
      assert Kept(old(store), old(owned), st, own);
      hide Kept;
      if y.l.LeafRec? && caps.leaf / 2 == 1 {
        var vs := UpdateKey(us, y.l.es[0].key);
        KeptTwice(old(store), old(owned), st, own, store, owned);
      }
      LaidRoot(Now(), root, tree, caps);
    }

    // Another child takes the last entry of its left sibling.
    method BorrowLast(es: seq<PathEntry>, sb: nat, ghost t0: Tree, ghost q: seq<nat>, ghost n: Tree)
      requires inserting == NONE && Scene(Now(), root, tree, t0, depth, caps, es, q, n, sb)
      requires 0 < es[|es| - 2].index <= |n.ks| && Above(n.cs[es[|es| - 2].index - 1], caps)
      modifies this
      ensures Valid() && root != 0 && Contents(tree) == old(Contents(tree))
      ensures Kept(old(store), old(owned), store, owned)
    {
      hide Scene, Laid, Fits, Good, Contents, TakeLast, Above;
      ghost var x := Now();
      SceneRecs(x, root, tree, t0, depth, caps, es, q, n, sb);
      var e, b := es[|es| - 2], es[|es| - 1].block;
      var parent, i := store[e.block], e.index;
      var y := TakeLast(store[sb], e.prevKey, store[b]);
      TakeLastSize(store[sb], e.prevKey, store[b], y);
      var nb := WriteNode(sb, y.l);
      store := store[b := y.r][e.block :=
        InnerRec(parent.ks[i - 1 := y.k], parent.kids[..i - 1] + [nb, b] + parent.kids[i + 1..])];
      tree := BorrowedLast(x, root, tree, t0, depth, caps, es, q, n, sb, i, y, nb, Now());
      LaidRoot(Now(), root, tree, caps);
    }

    // Children a and a+1 of the node in block pb are replaced by one with contents m; the right one's block is freed.
    method JoinSiblings(pb: nat, a: nat, lb: nat, rb: nat, m: NodeRec) returns (mb: nat)
      requires 0 !in store && lb in store && pb in store && owned <= store.Keys && Fits(store, caps)
               && Size(m) <= Cap(m, caps)
      requires lb != rb && pb != lb && pb != rb && rb in store
      requires store[pb].InnerRec? && a < |store[pb].ks| && a + 1 < |store[pb].kids|
      modifies this`store, this`owned, this`blocks
      ensures Merged(old(Now()), pb, a, lb, rb, mb, m, Now())
      ensures pb in old(owned) ==> Kept(old(store), old(owned), store, owned)
    {
      var parent := store[pb];
      mb := WriteNode(lb, m);
      store := store[pb := InnerRec(parent.ks[..a] + parent.ks[a + 1..],
        parent.kids[..a] + [mb] + parent.kids[a + 2..])];
      blocks := blocks - {rb};
      if rb in owned {
        store, owned := store - {rb}, owned - {rb};
      }
    }

    // The node and its sibling become one; the right block is freed and the parent loses a key.
    method Merge(es: seq<PathEntry>, sb: nat, ghost t0: Tree, ghost q: seq<nat>, ghost n: Tree)
      returns (fs: seq<PathEntry>)
      requires inserting == NONE && Scene(Now(), root, tree, t0, depth, caps, es, q, n, sb)
      requires Size(store[sb]) <= Cap(store[sb], caps) / 2 && !Above(n.cs[Sibling(es[|es| - 2].index)], caps)
      modifies this
      ensures inserting == NONE && Shrunk(Now(), root, tree, depth, caps, fs) && |fs| == |es| - 1
      ensures Contents(tree) == old(Contents(tree)) && Kept(old(store), old(owned), store, owned)
    {
      hide Scene, Laid, Along, Fits, Contents, SetLow, Mended, Join, Above, Linked, Level, Separated, Sorted, ShrunkAt,
        Hints, Merged, Kept, SamePath, SameLinks,
        OwnedPath, Shrunk;
      ghost var x := Now();
      SceneRecs(x, root, tree, t0, depth, caps, es, q, n, sb);
      var e, b := es[|es| - 2], es[|es| - 1].block;
      var us := es[..|es| - 2];
      var a := if e.index == 0 then 0 else e.index - 1;
      var lb, rb := if e.index == 0 then b else sb, if e.index == 0 then sb else b;
      var m := Join(store[lb], store[e.block].ks[a], store[rb]);
      JoinSize(store[lb], store[e.block].ks[a], store[rb], m, caps);
      var mb := JoinSiblings(e.block, a, lb, rb, m);
      ghost var u, w := Joined(x, root, tree, t0, depth, caps, es, q, n, sb, e.index, a, lb, rb, mb, m, Now());
      tree := u;
      MendedParts(Now(), root, tree, depth, caps, us);
      fs := us;
      ghost var st, own := store, owned;
      SameSelf(store, us);
      if e.index == 0 && m.LeafRec? && caps.leaf / 2 == 1 {
        fs := UpdateKey(us, m.es[0].key);
        KeptTwice(old(store), old(owned), st, own, store, owned);
      }
      assert tree == w;
      MergeDone(st, Now(), root, tree, depth, caps, es, us, fs, e);
      fs := fs + [e];
    }

    // block_tree_remove_internal: the node at the end of fs lost a key. A root without keys gives
    // way to its only child; another node below its minimum is rebalanced.
    method RemoveInternal(fs: seq<PathEntry>)
      requires inserting == NONE && Shrunk(Now(), root, tree, depth, caps, fs)
      modifies this
      ensures Valid() && root != 0 && Contents(tree) == old(Contents(tree))
      ensures Kept(old(store), old(owned), store, owned)
      decreases |fs|, 2
    {
      hide Shrunk, Short, Laid, Good, Contents, Along, At;
      ghost var x := Now();
      ShrunkRecs(x, root, tree, depth, caps, fs);
      var b := fs[|fs| - 1].block;
      if |fs| == 1 && |store[b].ks| == 0 {
        var kid := store[b].kids[0];
        RootGone(x, root, tree, depth, caps, fs, kid, Layout(store - {b}, owned - {b}, blocks - {b}));
        root, store, owned, blocks := kid, store - {b}, owned - {b}, blocks - {b};
        tree, depth := tree.cs[0], depth - 1;
        LaidRoot(Now(), root, tree, caps);
      } else if |fs| > 1 && |store[b].ks| < caps.inner / 2 {
        ShrunkShort(x, root, tree, depth, caps, fs);
        Rebalance(fs, tree);
      } else {
        ShrunkGood(x, root, tree, depth, caps, fs);
      }
    }

    // The entry the path stands on is taken out of its leaf. `short` says that the leaf is now
    // below its minimum; t0 is a tree whose separators are right.
    method TakeOut(path: Path, ghost e: Entry) returns (fs: seq<PathEntry>, short: bool, ghost t0: Tree)
      requires Valid() && root != 0 && Standing(store, root, tree, depth, path, e)
      modifies this
      ensures root != 0 && inserting == NONE && depth == old(depth)
      ensures Contents(tree) == RemoveAt(old(Contents(tree)), Pos(old(tree), path))
      ensures if short then Short(Now(), root, tree, t0, depth, caps, fs) else Valid()
      ensures Kept(old(store), old(owned), store, owned)
    {
      hide Standing, FullPath, Laid, Good, Contents, Along, At, Replace, SetLow, Linked, Level, Separated, Sorted,
        Filled, FilledAround, ShortAt, Kept, OwnedPath, Hints,
        SameLinks, SamePath, LeafAt, Short, Mended;
      ghost var t, x := tree, Now();
      StandingLeaf(x, root, t, depth, caps, path, e);
      var n := |path.entries| - 1;
      var i, y := path.entries[n].index, RemoveAt(store[path.entries[n].block].es, path.entries[n].index);
      fs := PutLeaf(path.entries, y);
      ghost var u, st, own := tree, store, owned;
      ghost var p := LeafAt(path);
      PutPath(x, old(root), t, depth, caps, path, y, Now(), root, u, fs);
      RemovedContents(t, p, i, caps, depth, u);
      var us, top := fs[..n], fs[n];
      MendedParts(Now(), root, tree, depth, caps, us);
      SameSelf(store, us);
      if n > 0 && i == 0 && y != [] {
        us := UpdateKey(us, y[0].key);
        KeptTwice(old(store), old(owned), st, own, store, owned);
      }
      short := n > 0 && |y| < caps.leaf / 2;
      PathRejoin(st, Now(), root, fs, fs[..n], us);
      fs := us + [top];
      t0 := TakenDone(t, depth, caps, p, i, y, u, Now(), root, tree, fs);
    }

    // block_tree_remove
    method Remove(key: nat, data: nat) returns (ghost pos: nat)
      requires Valid() && root != 0 && key > 0 && data > 0 && Entry(key, data) in Contents(tree)
      modifies this
      ensures Valid() && root != 0
      ensures pos < |old(Contents(tree))| && old(Contents(tree))[pos] == Entry(key, data)
      ensures Contents(tree) == RemoveAt(old(Contents(tree)), pos)
      ensures Kept(old(store), old(owned), store, owned)
    {
      hide Laid, Good, Contents, Standing, Short, Kept, Keyed;
      StateHolds(Now(), root, tree, depth, caps);
      var path := Find(State(), Entry(key, data), tree, depth);
      StandingParts(store, root, tree, depth, path, Entry(key, data));
      pos := Pos(tree, path);
      var fs, short, t0 := TakeOut(path, Entry(key, data));
      if short {
        ghost var st, own := store, owned;
        Rebalance(fs, t0);
        KeptTwice(old(store), old(owned), st, own, store, owned);
      }
    }

    // The entry the path stands on becomes e; if it is the first of its leaf and its key changes,
    // the separator to its left changes with it.
    method Rewrite(path: Path, ghost e0: Entry, e: Entry)
      requires Valid() && root != 0 && Standing(store, root, tree, depth, path, e0)
      requires Sorted(Contents(tree)[Pos(tree, path) := e])
      modifies this
      ensures Valid() && root != 0 && Contents(tree) == old(Contents(tree))[Pos(old(tree), path) := e]
      ensures Kept(old(store), old(owned), store, owned)
    {
      hide Standing, FullPath, Laid, Good, Contents, Along, At, Replace, SetLow, Linked, Level, Separated, Sorted,
        Filled, Kept, OwnedPath, Hints,
        SameLinks, SamePath, LeafAt, Mended;
      ghost var t, x := tree, Now();
      StandingLeaf(x, root, t, depth, caps, path, e0);
      ghost var p := LeafAt(path);
      var n := |path.entries| - 1;
      var i, es := path.entries[n].index, store[path.entries[n].block].es;
      var fs := PutLeaf(path.entries, es[i := e]);
      ghost var u, st, own := tree, store, owned;
      PutPath(x, old(root), t, depth, caps, path, es[i := e], Now(), root, u, fs);
      SwapContents(t, p, i, e, depth, caps, u);
      var us := fs[..n];
      MendedParts(Now(), root, tree, depth, caps, us);
      if n > 0 && i == 0 && e.key != es[i].key {
        us := UpdateKey(us, e.key);
        KeptTwice(old(store), old(owned), st, own, store, owned);
      }
      SwapGood(t, p, i, e, depth, caps, u, tree);
      LaidRoot(Now(), root, tree, caps);
    }

    // block_tree_update_block_mac: change the key or the data of an entry in place. The source
    // asserts that the new key is accepted; here ok says whether it is.
    method Update(oldKey: nat, oldData: nat, newKey: nat, newData: nat) returns (ok: bool, ghost pos: nat)
      requires Valid() && root != 0 && oldKey > 0 && oldData > 0 && newKey > 0 && newData > 0
      requires Entry(oldKey, oldData) in Contents(tree)
      requires newKey >= oldKey || Foremost(Contents(tree), Entry(oldKey, oldData))
      modifies this
      ensures Valid() && root != 0
      ensures pos < |old(Contents(tree))| && old(Contents(tree))[pos] == Entry(oldKey, oldData)
      ensures ok <==> Sorted(old(Contents(tree))[pos := Entry(newKey, newData)])
      ensures Contents(tree) == if ok then old(Contents(tree))[pos := Entry(newKey, newData)] else old(Contents(tree))
      ensures Kept(old(store), old(owned), store, owned)
    {
      hide Laid, Good, Contents, Standing, Kept, Keyed, AtFloor, Walked, Level, Separated, Sorted, Filled, Along, At;
      var e := Entry(oldKey, oldData);
      StateHolds(Now(), root, tree, depth, caps);
      var path := Walk(State(), oldKey - 1, true, tree, depth);
      ghost var low := PrevFound(store, root, tree, depth, path, e);
      var prev := PrevKey(Entry(PathKey(path), path.data), e);
      path := Find(State(), e, tree, depth);
      StandingParts(store, root, tree, depth, path, e);
      StandingLeaf(Now(), root, tree, depth, caps, path, e);
      pos := Pos(tree, path);
      var n := |path.entries| - 1;
      var next := State().Key(path.entries[n].block, path.entries[n].index + 1);
      if n > 0 && next == 0 {
        next := path.entries[n - 1].nextKey;
      }
      NextFound(store, root, tree, depth, path, e, next);
      AcceptsOrder(Contents(tree), low, pos, next, newKey, newData);
      SameKeyOrder(Contents(tree), pos, newData);
      ok := oldKey == newKey || Accepts(prev, next, newKey);
      KeptSelf(store, owned);
      if ok {
        Rewrite(path, e, Entry(newKey, newData));
      }
    }

    // ---- searching ----

    // The path stands on entry number pos, or at the end.
    ghost predicate Stands(path: Path, pos: nat)
      reads this
    {
      root != 0 && Lands(State().V(), root, tree, depth, path, pos)
    }

    // The path stands at position pos, possibly on an empty slot behind the last entry of a leaf.
    ghost predicate Rests(path: Path, pos: nat)
      reads this
    {
      root != 0 && FullPath(State().V(), root, tree, path) && |path.entries| == depth && Pos(tree, path) == pos
    }

    // block_tree_walk for the last entry with at most this key
    method Floor(key: nat) returns (path: Path, ghost pos: nat)
      requires Readable()
      ensures Contents(tree) == [] ==> PathKey(path) == 0 && path.data == 0
      ensures Contents(tree) != [] ==>
                && AtFloor(Contents(tree), pos, key) && pos < |Contents(tree)| && Stands(path, pos)
                && Contents(tree)[pos] == Entry(PathKey(path), path.data)
    {
      hide Walked, Keyed, AtFloor, Lands, Separated, Sorted;
      if root == 0 {
        return Path([], 0), 0;
      }
      path := Walk(State(), key, true, tree, depth);
      pos := WalkedFloor(State().V(), root, tree, depth, path, key);
    }

    // block_tree_path_next
    method Successor(path: Path, ghost pos: nat) returns (q: Path)
      requires Readable() && pos < |Contents(tree)| && Stands(path, pos)
      ensures Stands(q, pos + 1) && (PathKey(q) == 0 <==> pos + 1 == |Contents(tree)|)
      ensures if pos + 1 < |Contents(tree)| then Contents(tree)[pos + 1] == Entry(PathKey(q), q.data)
              else PathKey(q) == 0 && q.data == 0
    {
      hide Keyed, Lands, Separated, Sorted;
      LandsGood(State().V(), root, tree, depth, path, pos);
      q := Next(State(), path, tree, depth);
      LandsGood(State().V(), root, tree, depth, q, pos + 1);
    }

    // block_tree_walk for the first entry
    method First() returns (path: Path)
      requires Readable()
      ensures if Contents(tree) == [] then PathKey(path) == 0 == path.data
              else Stands(path, 0) && Contents(tree)[0] == Entry(PathKey(path), path.data)
      ensures PathKey(path) == 0 <==> Contents(tree) == []
    {
      hide Walked, Keyed, Lands, Separated, Sorted;
      if root == 0 {
        return Path([], 0);
      }
      path := Walk(State(), 0, true, tree, depth);
      WalkedStart(State().V(), root, tree, depth, path);
      LandsGood(State().V(), root, tree, depth, path, 0);
    }

    // block_tree_walk for the least key that is at least this key
    method Ceiling(key: nat) returns (path: Path, ghost pos: nat)
      requires Readable()
      ensures AtCeil(Contents(tree), pos, key) && Shows(Contents(tree), pos, path)
              && (pos < |Contents(tree)| ==> Rests(path, pos))
      ensures PathKey(path) == key > 0 ==> path.data > 0
    {
      hide Walked, Keyed, FullPath, Separated, Sorted;
      if root == 0 {
        return Path([], 0), 0;
      }
      path := Walk(State(), key, false, tree, depth);
      WalkedCeil(State().V(), root, tree, depth, path, key);
      pos := Pos(tree, path);
    }

    // block_tree_path_next from wherever a path stands
    method Advance(path: Path, ghost pos: nat) returns (q: Path)
      requires Readable() && pos < |Contents(tree)| && Rests(path, pos)
      ensures var to := pos + if path.data > 0 then 1 else 0;
              Shows(Contents(tree), to, q) && Rests(q, to) && (to < |Contents(tree)| ==> q.data > 0)
    {
      hide Keyed, Lands, FullPath, Separated, Sorted;
      FullShows(State().V(), root, tree, path);
      q := Next(State(), path, tree, depth);
      LandsGood(State().V(), root, tree, depth, q, pos + if path.data > 0 then 1 else 0);
    }

    // An empty tree.
    constructor (caps: Caps)
      requires CapsOk(caps)
      ensures Valid() && Contents(tree) == [] && this.caps == caps
    {
      this.caps := caps;
      store, owned, root, inserting := map[], {}, 0, NONE;
      tree, depth, blocks := Leaf([]), 0, {};
    }

    // A writable view of the same tree: every block of src has to be copied before it is written.
    constructor Copy(src: BlockTree)
      requires src.Valid()
      ensures Valid() && tree == src.tree && store == src.store && owned == {}
    {
      caps, store, owned, root, inserting := src.caps, src.store, {}, src.root, NONE;
      tree, depth, blocks := src.tree, src.depth, src.blocks;
    }
  }
}
