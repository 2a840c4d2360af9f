// Paths into a B+ tree stored in blocks. Nodes are read through the pending `inserting`
// entry, so a tree can be read while a full node is waiting for room.
module TreePath {
  import opened TreeModel
  import opened TreeStore
  import opened TreeSearch

  // Entry on its way into a full node; block 0 means there is none.
  datatype Inserting = Inserting(block: nat, key: nat, child: nat, data: nat)

  const NONE := Inserting(0, 0, 0, 0)

  datatype PathEntry = PathEntry(block: nat, index: nat, prevKey: nat, nextKey: nat)

  datatype Path = Path(entries: seq<PathEntry>, data: nat)

  // block_tree_path_get_key
  function PathKey(p: Path): nat {
    if p.entries == [] then 0 else p.entries[|p.entries| - 1].nextKey
  }

  function Cap(r: NodeRec, c: Caps): nat { if r.LeafRec? then c.leaf else c.inner }

  function Size(r: NodeRec): nat { if r.LeafRec? then |r.es| else |r.ks| }

  function KeyAt(r: NodeRec, i: nat): nat {
    if i >= Size(r) then 0 else if r.LeafRec? then r.es[i].key else r.ks[i]
  }

  function Append(r: NodeRec, x: Inserting): NodeRec {
    if r.LeafRec? then LeafRec(r.es + [Entry(x.key, x.data)]) else InnerRec(r.ks + [x.key], r.kids + [x.child])
  }

  // The stored nodes together with the entry being inserted.
  function View(st: Store, x: Inserting): Store {
    if x.block in st then st[x.block := Append(st[x.block], x)] else st
  }

  datatype TreeState = TreeState(store: Store, caps: Caps, root: nat, inserting: Inserting) {

    // The node receiving the pending entry is full, so index Size(r) is its overflow slot.
    ghost predicate Readable()
    {
      && 0 !in store
      && (inserting.block in store ==>
            && Size(store[inserting.block]) == Cap(store[inserting.block], caps)
            && inserting.key > 0
            && (store[inserting.block].LeafRec? ==> inserting.data > 0)
            && (store[inserting.block].InnerRec? ==> |store[inserting.block].kids| == Size(store[inserting.block]) + 1))
      && forall b :: b in store ==> Size(store[b]) <= Cap(store[b], caps)
    }

    // block_tree_node_is_leaf
    predicate IsLeaf(b: nat)
      requires b in store
      ensures IsLeaf(b) == V()[b].LeafRec?
    {
      store[b].LeafRec?
    }

    // block_tree_node_get_key
    function Key(b: nat, i: nat): (k: nat)
      requires b in store && Readable()
      ensures k == KeyAt(V()[b], i)
    {
      var r := store[b];
      var k := KeyAt(r, i);
      if k == 0 && b == inserting.block && i == Cap(r, caps) then inserting.key else k
    }

    // block_tree_node_get_child
    function Child(b: nat, i: nat): (k: nat)
      requires b in store && !IsLeaf(b) && Readable()
      ensures var v := V()[b]; v.InnerRec? && (k == if i < |v.kids| then v.kids[i] else 0)
    {
      var r := store[b];
      if i < |r.kids| then r.kids[i]
      else if b == inserting.block && i == Cap(r, caps) + 1 then inserting.child else 0
    }

    // block_tree_node_get_data
    function Data(b: nat, i: nat): (d: nat)
      requires b in store && IsLeaf(b) && Readable()
      ensures var v := V()[b]; v.LeafRec? && (d == if i < |v.es| then v.es[i].data else 0)
    {
      var r := store[b];
      if i < |r.es| then r.es[i].data
      else if b == inserting.block && i == Cap(r, caps) then inserting.data else 0
    }

    ghost function V(): (v: Store)
      ensures v.Keys == store.Keys
    {
      View(store, inserting)
    }

    // The tree t of depth d can be read from this state.
    ghost predicate Holds(t: Tree, d: nat)
    {
      && Readable()
      && (root == 0 ==> t == Leaf([]))
      && (root != 0 ==> Rep(V(), root, t) && Level(t, d))
      && Separated(t) && Sorted(Contents(t))
    }
  }

  // The child indices along a path.
  function Idx(es: seq<PathEntry>): (p: seq<nat>)
    ensures |p| == |es|
  {
    if es == [] then [] else Idx(es[..|es| - 1]) + [es[|es| - 1].index]
  }

  // Keys cached for an internal node whose child position is p.
  ghost predicate InnerKeys(t: Tree, p: seq<nat>, e: PathEntry)
    requires Along(t, p)
  {
    && e.nextKey == Head(After(t, p))
    && e.prevKey == if AllZero(p) then 0 else Head(Contents(At(t, p)))
  }

  // Keys and data cached for the leaf at p.
  ghost predicate LeafKeys(t: Tree, p: seq<nat>, e: PathEntry, data: nat)
    requires Along(t, p)
  {
    var leaf := At(t, p);
    && leaf.Leaf? && e.index <= |leaf.es|
    && e.nextKey == Head(leaf.es[e.index..] + After(t, p))
    && e.prevKey == (if e.index > 0 then leaf.es[e.index - 1].key else if AllZero(p) then 0 else Head(leaf.es))
    && data == if e.index < |leaf.es| then leaf.es[e.index].data else 0
  }

  // Internal part of a path: the blocks passed and the keys cached on the way to position Idx(es).
  ghost predicate Way(st: Store, root: nat, t: Tree, es: seq<PathEntry>)
  {
    es != [] ==>
      var up, e := es[..|es| - 1], es[|es| - 1];
      && Way(st, root, t, up)
      && e.block == BlockAt(st, root, Idx(up))
      && Along(t, Idx(es)) && InnerKeys(t, Idx(es), e)
  }

  // A path that reaches an entry of a leaf of t, or the slot just after its last entry.
  ghost predicate FullPath(st: Store, root: nat, t: Tree, path: Path)
  {
    path.entries != [] &&
    var n := |path.entries| - 1;
    var up, e := path.entries[..n], path.entries[n];
    && Way(st, root, t, up) && Along(t, Idx(up))
    && e.block == BlockAt(st, root, Idx(up))
    && LeafKeys(t, Idx(up), e, path.data)
  }

  // Position of the leaf a path leads to.
  ghost function LeafAt(path: Path): seq<nat>
    requires path.entries != []
  {
    Idx(path.entries[..|path.entries| - 1])
  }

  // Position in Contents(t) that the path stands at.
  ghost function Pos(t: Tree, path: Path): nat
    requires path.entries != [] && Along(t, LeafAt(path))
  {
    |Before(t, LeafAt(path))| + path.entries[|path.entries| - 1].index
  }

  // The path stands on an entry, not on an empty insert slot.
  ghost predicate OnEntry(path: Path) { path.data > 0 }

  // The contents from the path's position on.
  lemma {:induction false} LeafReads(t: Tree, q: seq<nat>, e: PathEntry, data: nat)
    requires Along(t, q) && LeafKeys(t, q, e, data)
    ensures var pos := |Before(t, q)| + e.index; var leaf := At(t, q);
            && pos <= |Contents(t)| && Contents(t)[pos..] == leaf.es[e.index..] + After(t, q)
            && Contents(t)[..pos] == Before(t, q) + leaf.es[..e.index]
  {
    ContentsAt(t, q);
    var leaf, b := At(t, q), Before(t, q);
    assert Contents(t) == (b + leaf.es[..e.index]) + (leaf.es[e.index..] + After(t, q));
  }

  // A path's key and data are those of the contents at its position.
  lemma {:induction false} PathReads(st: Store, root: nat, t: Tree, path: Path)
    requires FullPath(st, root, t, path) && Sorted(Contents(t))
    ensures Pos(t, path) <= |Contents(t)|
    ensures PathKey(path) == Head(Contents(t)[Pos(t, path)..])
    ensures OnEntry(path) ==> Pos(t, path) < |Contents(t)| && path.data == Contents(t)[Pos(t, path)].data
    ensures PathKey(path) == 0 <==> Pos(t, path) == |Contents(t)|
    ensures PathKey(path) == 0 ==> path.data == 0
  {
    var q := LeafAt(path);
    var e := path.entries[|path.entries| - 1];
    LeafReads(t, q, e, path.data);
    var pos := Pos(t, path);
    assert pos < |Contents(t)| ==> Contents(t)[pos..][0] == Contents(t)[pos];
    assert e.index < |At(t, q).es| ==> Contents(t)[pos..][0] == At(t, q).es[e.index];
  }

  // Everything left of the subtree at p is at most key, everything right of it is greater.
  ghost predicate Bracket(t: Tree, p: seq<nat>, key: nat)
    requires Along(t, p)
  {
    && (forall k :: 0 <= k < |Before(t, p)| ==> Before(t, p)[k].key <= key)
    && (forall k :: 0 <= k < |After(t, p)| ==> key < After(t, p)[k].key)
    && (!AllZero(p) ==> 0 < Head(Contents(At(t, p))) <= key)
  }

  // One step down from the node at p to its child i.
  lemma {:induction false} StepDown(t: Tree, p: seq<nat>, i: nat)
    requires Separated(t) && Sorted(Contents(t)) && Along(t, p) && At(t, p).Node? && i < |At(t, p).cs|
    ensures Along(t, p + [i])
    ensures var n := At(t, p);
            && |n.cs| == |n.ks| + 1
            && (forall j :: 0 <= j < |n.ks| ==> n.ks[j] > 0)
            && Head(After(t, p + [i])) == (if i < |n.ks| then n.ks[i] else Head(After(t, p)))
            && Contents(n.cs[i]) != []
            && Head(Contents(n.cs[i])) == (if i > 0 then n.ks[i - 1] else Head(Contents(n))) > 0
  {
    AtSnoc(t, p, i);
    SeparatedAt(t, p);
    var n := At(t, p);
    FlatHead(n.cs);
    ContentsAt(t, p);
    forall j | 0 <= j < |n.cs|
      ensures 0 < Head(Contents(n.cs[j]))
    {
      HeadPositive(t, p, j);
    }
    if i < |n.ks| {
      FlatHead(n.cs[i + 1..]);
    }
  }

  lemma {:induction false} HeadPositive(t: Tree, p: seq<nat>, j: nat)
    requires Sorted(Contents(t)) && Along(t, p) && At(t, p).Node? && j < |At(t, p).cs| && Contents(At(t, p).cs[j]) != []
    ensures 0 < Head(Contents(At(t, p).cs[j]))
  {
    AtSnoc(t, p, j);
    ContentsAt(t, p + [j]);
    assert Contents(t)[|Before(t, p + [j])|] == Contents(At(t, p).cs[j])[0];
  }

  lemma {:induction false} StepBracket(t: Tree, p: seq<nat>, i: nat, key: nat)
    requires Separated(t) && Sorted(Contents(t)) && Along(t, p) && At(t, p).Node? && i < |At(t, p).cs|
    requires Bracket(t, p, key)
    requires var n := At(t, p); (i > 0 ==> i <= |n.ks| && n.ks[i - 1] <= key) && (i < |n.ks| ==> key < n.ks[i])
    ensures Along(t, p + [i]) && Bracket(t, p + [i], key)
  {
    StepDown(t, p, i);
    AtSnoc(t, p, i);
    var q := p + [i];
    var n := At(t, p);
    ContentsAt(t, q);
    var a := |Before(t, q)|;
    var C := Contents(t);
    assert C[a] == Contents(n.cs[i])[0];
    forall k | 0 <= k < |Before(t, q)|
      ensures Before(t, q)[k].key <= key
    {
      assert Before(t, q)[k] == C[k] && Le(C, k, a);
      if i == 0 {
        assert Flat(n.cs[..0]) == [];
      }
    }
    var z := a + |Contents(n.cs[i])|;
    forall k | 0 <= k < |After(t, q)|
      ensures key < After(t, q)[k].key
    {
      assert After(t, q)[k] == C[z + k] && After(t, q)[0] == C[z];
      assert k > 0 ==> Le(C, z, z + k);
    }
    AllZeroSnoc(p, i);
  }

  lemma AllZeroSnoc(p: seq<nat>, i: nat)
    ensures AllZero(p + [i]) <==> AllZero(p) && i == 0
  {
    assert (p + [i])[|p|] == i;
    forall k | 0 <= k < |p|
      ensures (p + [i])[k] == p[k]
    {}
  }

  lemma {:induction false} BeforeZero(t: Tree, p: seq<nat>)
    requires Along(t, p) && AllZero(p)
    ensures Before(t, p) == []
    decreases |p|
  {
    if p != [] {
      BeforeZero(t.cs[0], p[1..]);
      assert t.cs[..0] == [];
    }
  }

  // First slot of the leaf at q whose key is at least key.
  ghost predicate LeafSlot(t: Tree, q: seq<nat>, j: nat, key: nat)
    requires Along(t, q)
  {
    var leaf := At(t, q);
    && leaf.Leaf? && j <= |leaf.es|
    && (forall k :: 0 <= k < j ==> leaf.es[k].key < key)
    && (j < |leaf.es| ==> leaf.es[j].key >= key)
  }

  lemma {:induction false} LeafSpot(t: Tree, q: seq<nat>, j: nat, key: nat)
    requires Separated(t) && Sorted(Contents(t)) && Along(t, q) && Bracket(t, q, key) && LeafSlot(t, q, j, key)
    ensures Spot(Before(t, q), At(t, q).es, After(t, q), j, key)
    ensures At(t, q).es == [] ==> Before(t, q) == [] && After(t, q) == []
    ensures Contents(t) == Before(t, q) + At(t, q).es + After(t, q)
  {
    ContentsAt(t, q);
    SeparatedAt(t, q);
    if AllZero(q) {
      BeforeZero(t, q);
    }
  }

  lemma {:induction false} WaySnoc(st: Store, root: nat, t: Tree, es: seq<PathEntry>, e: PathEntry)
    requires Way(st, root, t, es) && Along(t, Idx(es) + [e.index]) && InnerKeys(t, Idx(es) + [e.index], e)
    requires e.block == BlockAt(st, root, Idx(es))
    ensures Way(st, root, t, es + [e]) && Idx(es + [e]) == Idx(es) + [e.index]
  {
    var fs := es + [e];
    assert fs[..|es|] == es;
  }

  // Slot i of a leaf as block_tree_node_find_block leaves it, j being the first slot not below key.
  ghost predicate Slot(es: seq<Entry>, j: nat, i: nat, key: nat, keyIsMax: bool)
  {
    var v := LeafRec(es);
    && j <= |es|
    && (forall k :: 0 <= k < j ==> KeyAt(v, k) != 0 && KeyAt(v, k) < key)
    && (KeyAt(v, j) == 0 || KeyAt(v, j) >= key)
    && i == (if keyIsMax && j > 0 && (KeyAt(v, j) == 0 || KeyAt(v, j) > key) then j - 1 else j)
  }

  lemma SlotKeys(es: seq<Entry>, j: nat, i: nat, key: nat, keyIsMax: bool, after: seq<Entry>)
    requires Slot(es, j, i, key, keyIsMax)
    requires forall k :: 0 <= k < |es| ==> es[k].key > 0
    ensures forall k :: 0 <= k < j ==> es[k].key < key
    ensures j < |es| ==> es[j].key >= key
    ensures i == if keyIsMax && j > 0 && (j == |es| || es[j].key > key) then j - 1 else j
    ensures Head(es[i..] + after) == if KeyAt(LeafRec(es), i) != 0 then KeyAt(LeafRec(es), i) else Head(after)
  {
    forall k | 0 <= k < |es|
      ensures KeyAt(LeafRec(es), k) == es[k].key
    {}
    assert i == |es| ==> es[i..] + after == after;
  }

  lemma {:induction false} LeafPositive(t: Tree, p: seq<nat>)
    requires Along(t, p) && At(t, p).Leaf? && Sorted(Contents(t))
    ensures forall k :: 0 <= k < |At(t, p).es| ==> At(t, p).es[k].key > 0 && At(t, p).es[k].data > 0
  {
    ContentsAt(t, p);
    forall k | 0 <= k < |At(t, p).es|
      ensures At(t, p).es[k].key > 0 && At(t, p).es[k].data > 0
    {
      assert Contents(t)[|Before(t, p)| + k] == At(t, p).es[k];
    }
  }

  // The leaf reached by a walk.
  lemma {:induction false} LeafEnd(t: Tree, p: seq<nat>, e: PathEntry, data: nat, j: nat, key: nat, keyIsMax: bool)
    requires Along(t, p) && At(t, p).Leaf? && Sorted(Contents(t))
    requires var v := LeafRec(At(t, p).es);
             && Slot(v.es, j, e.index, key, keyIsMax)
             && e.nextKey == (if KeyAt(v, e.index) != 0 then KeyAt(v, e.index) else Head(After(t, p)))
             && e.prevKey == (if e.index > 0 then KeyAt(v, e.index - 1) else if AllZero(p) then 0 else Head(v.es))
             && data == if e.index < |v.es| then v.es[e.index].data else 0
    ensures LeafKeys(t, p, e, data) && LeafSlot(t, p, j, key)
    ensures var es := At(t, p).es; e.index == if keyIsMax && j > 0 && (j == |es| || es[j].key > key) then j - 1 else j
    ensures e.index < |At(t, p).es| ==> data > 0
    ensures e.index == |At(t, p).es| ==> e.nextKey == Head(After(t, p))
  {
    LeafPositive(t, p);
    SlotKeys(At(t, p).es, j, e.index, key, keyIsMax, After(t, p));
  }
}
