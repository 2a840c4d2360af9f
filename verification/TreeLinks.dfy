// Paths as chains of parent and child blocks, and how copying or rewriting blocks along
// a path changes the tree.
module TreeLinks {
  import opened TreeModel
  import opened TreeStore
  import opened TreeSearch
  import opened TreePath

  // es starts at the root and each entry's child pointer is the next entry's block.
  ghost predicate Linked(st: Store, root: nat, es: seq<PathEntry>)
  {
    es != [] && es[0].block == root && forall k :: 0 <= k < |es| - 1 ==> Link(st, es, k)
  }

  ghost predicate Link(st: Store, es: seq<PathEntry>, k: nat)
    requires k + 1 < |es|
  {
    var b := es[k].block;
    b in st && st[b].InnerRec? && es[k].index < |st[b].kids| && st[b].kids[es[k].index] == es[k + 1].block
  }

  lemma {:induction false} LinkedAt(st: Store, root: nat, t: Tree, es: seq<PathEntry>, k: nat)
    requires Rep(st, root, t) && Linked(st, root, es) && k < |es| && Along(t, Idx(es[..k]))
    ensures BlockAt(st, root, Idx(es[..k])) == es[k].block
    decreases k
  {
    if k > 0 {
      assert es[..k][..k - 1] == es[..k - 1];
      AtSnoc(t, Idx(es[..k - 1]), es[k - 1].index);
      LinkedAt(st, root, t, es, k - 1);
      BlockAtSnoc(st, root, t, Idx(es[..k - 1]), es[k - 1].index);
      assert Link(st, es, k - 1);
    }
  }

  lemma WayEnd(st: Store, root: nat, t: Tree, up: seq<PathEntry>, e: PathEntry, es: seq<PathEntry>)
    requires Way(st, root, t, es) && es == up + [e] && up == es[..|es| - 1]
    ensures Idx(es) == Idx(up) + [e.index] && Way(st, root, t, up) && Along(t, Idx(up) + [e.index])
            && InnerKeys(t, Idx(up) + [e.index], e) && e.block == BlockAt(st, root, Idx(up))
  {
  }

  lemma {:induction false} WayLinked(st: Store, root: nat, t: Tree, es: seq<PathEntry>, e: PathEntry)
    requires Rep(st, root, t) && Way(st, root, t, es) && Along(t, Idx(es)) && e.block == BlockAt(st, root, Idx(es))
    ensures Linked(st, root, es + [e])
    decreases |es|
  {
    hide Rep, Way, Idx, At, Along, BlockAt, Linked;
    if es == [] {
      LinkedTop(st, root, es, e);
    } else {
      var up, f := es[..|es| - 1], es[|es| - 1];
      WayEnd(st, root, t, up, f, es);
      AtSnoc(t, Idx(up), f.index);
      WayLinked(st, root, t, up, f);
      BlockAtSnoc(st, root, t, Idx(up), f.index);
      assert up + [f] == es;
      LinkedSnoc(st, root, es, e);
    }
  }

  lemma LinkedTop(st: Store, root: nat, es: seq<PathEntry>, e: PathEntry)
    requires es == [] && e.block == BlockAt(st, root, Idx(es))
    ensures Linked(st, root, es + [e])
  {
  }

  lemma {:induction false} LinkedSnoc(st: Store, root: nat, es: seq<PathEntry>, e: PathEntry)
    requires Linked(st, root, es)
    requires var f := es[|es| - 1];
             f.block in st && st[f.block].InnerRec? && f.index < |st[f.block].kids|
               && st[f.block].kids[f.index] == e.block
    ensures Linked(st, root, es + [e])
  {
    forall k | 0 <= k < |es|
      ensures Link(st, es + [e], k)
    {
      assert k < |es| - 1 ==> Link(st, es, k);
    }
  }

  // Blocks along a path lie outside the subtrees below them.
  lemma {:induction false} LinkedApart(st: Store, root: nat, t: Tree, es: seq<PathEntry>, j: nat, k: nat)
    requires Rep(st, root, t) && Linked(st, root, es) && j < k < |es| && Along(t, Idx(es[..k]))
    ensures Along(t, Idx(es[..j]))
    ensures es[j].block !in Foot(st, es[k].block, At(t, Idx(es[..k])))
    ensures Foot(st, es[k].block, At(t, Idx(es[..k]))) <= Foot(st, es[j].block, At(t, Idx(es[..j])))
    ensures es[k].block in Foot(st, root, t)
    decreases k
  {
    var p, i := Idx(es[..k - 1]), es[k - 1].index;
    assert es[..k][..k - 1] == es[..k - 1];
    AtSnoc(t, p, i);
    LinkedAt(st, root, t, es, k);
    LinkedAt(st, root, t, es, k - 1);
    RepAt(st, root, t, p);
    RepAt(st, root, t, p + [i]);
    RepAt(st, es[k - 1].block, At(t, p), [i]);
    assert Link(st, es, k - 1);
    assert BlockAt(st, es[k - 1].block, [i]) == es[k].block;
    if j < k - 1 {
      LinkedApart(st, root, t, es, j, k - 1);
    }
  }

  lemma {:induction false} LinkedDistinct(st: Store, root: nat, t: Tree, es: seq<PathEntry>, k: nat)
    requires Rep(st, root, t) && Linked(st, root, es) && k < |es| && Along(t, Idx(es[..k]))
    ensures forall j :: 0 <= j < k ==> es[j].block != es[k].block
    ensures es[k].block in Foot(st, root, t)
  {
    LinkedAt(st, root, t, es, k);
    RepAt(st, root, t, Idx(es[..k]));
    forall j | 0 <= j < k
      ensures es[j].block != es[k].block
    {
      LinkedApart(st, root, t, es, j, k);
    }
  }

  // A chain is kept by writes that miss all its blocks but the last.
  lemma {:induction false} LinkedKeep(st: Store, st': Store, root: nat, es: seq<PathEntry>, m: nat)
    requires Linked(st, root, es) && 0 < m <= |es|
    requires forall k :: 0 <= k < m - 1 ==>
               es[k].block in st' && es[k].block in st && st'[es[k].block] == st[es[k].block]
    ensures Linked(st', root, es[..m])
  {
    forall k | 0 <= k < m - 1
      ensures Link(st', es[..m], k)
    {
      assert Link(st, es, k);
    }
  }

  // Node t in block b gets a new child i, stored at k, and is itself written to block nb.
  lemma {:induction false} KidMove(st: Store, st': Store, b: nat, nb: nat, t: Tree, i: nat, k: nat, c: Tree)
    requires Rep(st, b, t) && t.Node? && i < |t.cs| == |st[b].kids|
    requires var rest := Foot(st, b, t) - Foot(st, st[b].kids[i], t.cs[i]) - {b};
             && Agree(st, st', rest) && Rep(st', k, c) && Foot(st', k, c) !! rest
             && nb !in rest && nb !in Foot(st', k, c)
             && nb in st' && st'[nb] == InnerRec(t.ks, st[b].kids[i := k])
    ensures Rep(st', nb, Node(t.ks, t.cs[i := c]))
    ensures Foot(st', nb, Node(t.ks, t.cs[i := c])) ==
            Foot(st, b, t) - Foot(st, st[b].kids[i], t.cs[i]) - {b} + Foot(st', k, c) + {nb}
  {
    hide KidsRep, KidsFoot;
    var kids, cs := st[b].kids, t.cs;
    KidsSplit(st, kids, cs, i);
    KidsFrame(st, st', kids[..i], cs[..i]);
    KidsFrame(st, st', kids[i + 1..], cs[i + 1..]);
    var kids', cs' := kids[i := k], cs[i := c];
    assert kids'[..i] == kids[..i] && kids'[i + 1..] == kids[i + 1..];
    assert cs'[..i] == cs[..i] && cs'[i + 1..] == cs[i + 1..];
    KidsSplit(st', kids', cs', i);
  }

  // ---- rewriting a leaf and copying the way up to it (block_tree_path_put_dirty) ----

  lemma {:induction false} AlongSplit(t: Tree, p: seq<nat>, i: nat)
    requires Along(t, p) && i <= |p|
    ensures Along(t, p[..i]) && Along(At(t, p[..i]), p[i..])
    ensures At(At(t, p[..i]), p[i..]) == At(t, p)
    decreases |p|
  {
    if i > 0 {
      AlongSplit(t.cs[p[0]], p[1..], i - 1);
      assert p[..i][1..] == p[1..][..i - 1] && p[i..] == p[1..][i - 1..];
    } else {
      assert p[..0] == [] && p[0..] == p;
    }
  }

  lemma {:induction false} IdxSlice(es: seq<PathEntry>, i: nat)
    requires i <= |es|
    ensures Idx(es)[..i] == Idx(es[..i])
    decreases |es|
  {
    if i < |es| {
      IdxSlice(es[..|es| - 1], i);
      assert es[..|es| - 1][..i] == es[..i];
    } else {
      assert es[..i] == es;
    }
  }

  lemma {:induction false} PathPositions(t: Tree, es: seq<PathEntry>, i: nat)
    requires i < |es| && Along(t, Idx(es[..|es| - 1]))
    ensures Along(t, Idx(es[..i])) && Along(At(t, Idx(es[..i])), Idx(es[..|es| - 1])[i..])
    ensures At(At(t, Idx(es[..i])), Idx(es[..|es| - 1])[i..]) == At(t, Idx(es[..|es| - 1]))
    ensures i > 0 ==> Along(t, Idx(es[..i - 1])) && At(t, Idx(es[..i - 1])).Node?
                      && es[i - 1].index < |At(t, Idx(es[..i - 1])).cs|
    ensures i > 0 ==> At(t, Idx(es[..i])) == At(t, Idx(es[..i - 1])).cs[es[i - 1].index]
    ensures i > 0 ==> var q := Idx(es[..|es| - 1])[i - 1..];
            q != [] && q[0] == es[i - 1].index && q[1..] == Idx(es[..|es| - 1])[i..]
  {
    var p := Idx(es[..|es| - 1]);
    IdxSlice(es[..|es| - 1], i);
    assert es[..|es| - 1][..i] == es[..i];
    AlongSplit(t, p, i);
    if i > 0 {
      assert es[..i][..i - 1] == es[..i - 1];
      AtSnoc(t, Idx(es[..i - 1]), es[i - 1].index);
      assert p[i - 1] == Idx(es[..i])[i - 1] == es[i - 1].index;
    }
  }

  // Subtree t0 at block b0 was rewritten as t1 at block b; everything else is as it was.
  ghost predicate Copied(st0: Store, blocks0: set<nat>, b0: nat, t0: Tree, st: Store, b: nat, t1: Tree,
                         blocks: set<nat>)
  {
    var out := blocks0 - Foot(st0, b0, t0);
    && Rep(st, b, t1)
    && Agree(st0, st, out)
    && Foot(st, b, t1) !! out
    && blocks == out + Foot(st, b, t1)
  }

  lemma {:induction false} CopyLeaf(st0: Store, blocks0: set<nat>, b0: nat, t0: Tree, st: Store, b: nat, x: seq<Entry>,
                                    blocks: set<nat>)
    requires Rep(st0, b0, t0) && t0.Leaf? && b0 in blocks0 && blocks0 <= st0.Keys
    requires (b == b0 || b !in st0) && st == st0[b := LeafRec(x)] && blocks == blocks0 - {b0} + {b}
    ensures Copied(st0, blocks0, b0, t0, st, b, Leaf(x), blocks)
  {
  }

  // One level further up: child i of the node n0 at block p0 was rewritten, now the node itself is.
  lemma {:induction false} CopyUp(st0: Store, blocks0: set<nat>, p0: nat, n0: Tree, i: nat,
                                  st: Store, b: nat, t1: Tree, blocks: set<nat>, st': Store, b': nat, blocks': set<nat>)
    requires Rep(st0, p0, n0) && n0.Node? && i < |n0.cs| == |st0[p0].kids| && Foot(st0, p0, n0) <= blocks0 <= st0.Keys
    requires Copied(st0, blocks0, st0[p0].kids[i], n0.cs[i], st, b, t1, blocks) && st0.Keys <= st.Keys
    requires (b' == p0 || b' !in st) && st' == st[b' := InnerRec(n0.ks, st0[p0].kids[i := b])]
    requires blocks' == blocks - {p0} + {b'}
    ensures Copied(st0, blocks0, p0, n0, st', b', Node(n0.ks, n0.cs[i := t1]), blocks')
    ensures Foot(st, b, t1) <= Foot(st', b', Node(n0.ks, n0.cs[i := t1])) && p0 !in Foot(st, b, t1)
  {
    hide KidsRep, KidsFoot;
    KidsSplit(st0, st0[p0].kids, n0.cs, i);
    FootStored(st, b, t1);
    Frame(st, st', b, t1);
    KidMove(st0, st', p0, b', n0, i, b, t1);
  }

  // Blocks that were not writable keep their contents; only fresh blocks become writable.
  ghost predicate Kept(st0: Store, owned0: set<nat>, st: Store, owned: set<nat>)
  {
    && (forall b :: b in st0 && b !in owned0 ==> b in st && st[b] == st0[b])
    && (forall b :: b in st && b !in owned ==> b in st0 && b !in owned0)
    && (forall b :: b in owned ==> b in owned0 || b !in st0)
  }

  // A tree laid out in blocks together with a path into it.
  datatype Layout = Layout(st: Store, owned: set<nat>, blocks: set<nat>)

  ghost predicate Ready(x: Layout, root: nat, t: Tree, es: seq<PathEntry>)
  {
    && es != [] && 0 !in x.st && x.owned <= x.st.Keys * x.blocks && Rep(x.st, root, t)
    && Foot(x.st, root, t) == x.blocks
    && Linked(x.st, root, es) && Along(t, Idx(es[..|es| - 1])) && At(t, Idx(es[..|es| - 1])).Leaf?
  }

  // The copy of path es has reached level i: the subtree there is t1.
  ghost predicate CopyTree(x0: Layout, t: Tree, es: seq<PathEntry>, leaf: Tree, i: nat, x: Layout, b: nat, t1: Tree)
  {
    && i < |es| && Along(t, Idx(es[..|es| - 1])) && Along(t, Idx(es[..i]))
    && Along(At(t, Idx(es[..i])), Idx(es[..|es| - 1])[i..])
    && t1 == Replace(At(t, Idx(es[..i])), Idx(es[..|es| - 1])[i..], leaf)
    && Copied(x0.st, x0.blocks, es[i].block, At(t, Idx(es[..i])), x.st, b, t1, x.blocks)
  }

  // The new path fs is linked from level i on and lies in writable blocks of the copy.
  ghost predicate CopyPath(es: seq<PathEntry>, i: nat, x: Layout, fs: seq<PathEntry>, t1: Tree)
  {
    && i < |es| == |fs|
    && (forall k :: 0 <= k < |es| ==> fs[k] == es[k].(block := fs[k].block))
    && (forall k :: i <= k < |es| ==> fs[k].block in x.owned && fs[k].block in Foot(x.st, fs[i].block, t1))
    && (forall k :: i <= k < |es| - 1 ==> Link(x.st, fs, k))
  }

  ghost predicate Copying(x0: Layout, t: Tree, es: seq<PathEntry>, leaf: Tree, i: nat, x: Layout, fs: seq<PathEntry>,
                          t1: Tree)
  {
    && CopyPath(es, i, x, fs, t1) && CopyTree(x0, t, es, leaf, i, x, fs[i].block, t1)
    && CopyBlocks(x0, x)
  }

  // Effect of block_tree_block_dirty on block b.
  ghost predicate Written(x: Layout, b: nat, rec: NodeRec, x': Layout, nb: nat)
  {
    && (if b in x.owned then nb == b else nb != 0 && nb !in x.st)
    && x'.st == x.st[nb := rec] && x'.owned == x.owned + {nb} && x'.blocks == x.blocks - {b} + {nb}
  }

  // The parts of Copying that are about the blocks alone.
  ghost predicate CopyBlocks(x0: Layout, x: Layout)
  {
    && 0 !in x.st && x0.st.Keys <= x.st.Keys && x.owned <= x.st.Keys * x.blocks
    && Kept(x0.st, x0.owned, x.st, x.owned)
  }

  lemma StartBlocks(x: Layout)
    requires 0 !in x.st && x.owned <= x.st.Keys * x.blocks
    ensures CopyBlocks(x, x)
  {
  }

  lemma StartPath(es: seq<PathEntry>, x: Layout, nb: nat, y: seq<Entry>)
    requires es != [] && nb in x.owned && nb in x.st && x.st[nb] == LeafRec(y)
    ensures CopyPath(es, |es| - 1, x, es[|es| - 1 := es[|es| - 1].(block := nb)], Leaf(y))
  {
  }

  lemma CopyGrows(x0: Layout, x: Layout)
    requires CopyBlocks(x0, x)
    ensures x0.st.Keys <= x.st.Keys
  {
  }

  lemma WrittenBlocks(x0: Layout, x: Layout, b: nat, rec: NodeRec, x': Layout, nb: nat)
    requires CopyBlocks(x0, x) && Written(x, b, rec, x', nb)
    ensures CopyBlocks(x0, x')
  {
  }

  lemma TopFoot(st: Store, b: nat, t: Tree)
    requires Rep(st, b, t)
    ensures b in st && b in Foot(st, b, t)
  {
  }

  lemma {:induction false} CopyStart(x0: Layout, root: nat, t: Tree, es: seq<PathEntry>, y: seq<Entry>, x: Layout,
                                     nb: nat)
    requires Ready(x0, root, t, es) && Written(x0, es[|es| - 1].block, LeafRec(y), x, nb)
    ensures Copying(x0, t, es, Leaf(y), |es| - 1, x, es[|es| - 1 := es[|es| - 1].(block := nb)], Leaf(y))
  {
    hide Rep, Foot, Copied, Linked, BlockAt, Along, Idx, CopyBlocks, Kept, CopyPath;
    StartBlocks(x0);
    WrittenBlocks(x0, x0, es[|es| - 1].block, LeafRec(y), x, nb);
    var n := |es| - 1;
    var p := Idx(es[..n]);
    PathPositions(t, es, n);
    LinkedAt(x0.st, root, t, es, n);
    RepAt(x0.st, root, t, p);
    FootStored(x0.st, root, t);
    TopFoot(x0.st, es[n].block, At(t, p));
    CopyLeaf(x0.st, x0.blocks, es[n].block, At(t, p), x.st, nb, y, x.blocks);
    StartPath(es, x, nb, y);
    assert p[n..] == [];
  }

  // The next node up still has its old contents when its turn comes.
  lemma {:induction false} CopyNode(x0: Layout, root: nat, t: Tree, es: seq<PathEntry>, leaf: Tree, i: nat, x: Layout,
                                    fs: seq<PathEntry>, t1: Tree)
    requires Ready(x0, root, t, es) && Copying(x0, t, es, leaf, i, x, fs, t1) && 0 < i
    ensures Along(t, Idx(es[..i - 1])) && Along(t, Idx(es[..i]))
    ensures var b, n := es[i - 1].block, At(t, Idx(es[..i - 1]));
            && n.Node? && es[i - 1].index < |n.cs|
            && b in x0.st && Rep(x0.st, b, n) && |x0.st[b].kids| == |n.cs| && x0.st[b].ks == n.ks
            && b in x.st && x.st[b] == x0.st[b] && Foot(x0.st, b, n) <= x0.blocks
            && x0.st[b].kids[es[i - 1].index] == es[i].block && n.cs[es[i - 1].index] == At(t, Idx(es[..i]))
  {
    PathPositions(t, es, i);
    LinkedAt(x0.st, root, t, es, i - 1);
    RepAt(x0.st, root, t, Idx(es[..i - 1]));
    LinkedApart(x0.st, root, t, es, i - 1, i);
    assert Link(x0.st, es, i - 1);
  }

  lemma {:induction false} CopyStep(x0: Layout, root: nat, t: Tree, es: seq<PathEntry>, leaf: Tree, i: nat, x: Layout,
                                    fs: seq<PathEntry>, t1: Tree, rec: NodeRec, x': Layout, nb: nat)
    requires Ready(x0, root, t, es) && Copying(x0, t, es, leaf, i, x, fs, t1) && 0 < i && Along(t, Idx(es[..i - 1]))
    requires var e := es[i - 1];
             && e.block in x.st && x.st[e.block].InnerRec? && e.index < |x.st[e.block].kids|
             && rec == InnerRec(x.st[e.block].ks, x.st[e.block].kids[e.index := fs[i].block])
             && Written(x, e.block, rec, x', nb)
    ensures var n := At(t, Idx(es[..i - 1]));
            && n.Node? && es[i - 1].index < |n.cs|
            && Copying(x0, t, es, leaf, i - 1, x', fs[i - 1 := es[i - 1].(block := nb)],
               Node(n.ks, n.cs[es[i - 1].index := t1]))
  {
    var e, n := es[i - 1], At(t, Idx(es[..i - 1]));
    hide Ready, CopyPath, CopyTree, Rep, Foot, Linked, At, Along, Idx, Kept, CopyBlocks, Written;
    CopyGrows(x0, x);
    WrittenBlocks(x0, x, e.block, rec, x', nb);
    CopyNode(x0, root, t, es, leaf, i, x, fs, t1);
    CopyTreeStep(x0, root, t, es, leaf, i, x, fs[i].block, t1, n, x', nb);
    CopyPathStep(es, i, x, fs, t1, rec, x', nb, Node(n.ks, n.cs[e.index := t1]));
  }

  lemma {:induction false} CopyTreeStep(x0: Layout, root: nat, t: Tree, es: seq<PathEntry>, leaf: Tree, i: nat,
                                        x: Layout,
                                        b: nat, t1: Tree, n: Tree, x': Layout, nb: nat)
    requires Ready(x0, root, t, es) && CopyTree(x0, t, es, leaf, i, x, b, t1) && 0 < i && x0.st.Keys <= x.st.Keys
    requires Along(t, Idx(es[..i - 1])) && Along(t, Idx(es[..i])) && n == At(t, Idx(es[..i - 1])) && n.Node?
             && es[i - 1].index < |n.cs|
    requires n.cs[es[i - 1].index] == At(t, Idx(es[..i]))
    requires var pb, j := es[i - 1].block, es[i - 1].index;
             && Rep(x0.st, pb, n) && pb in x0.st && x0.st[pb].InnerRec? && |x0.st[pb].kids| == |n.cs|
             && x0.st[pb].kids[j] == es[i].block
             && Foot(x0.st, pb, n) <= x0.blocks && Written(x, pb, InnerRec(n.ks, x0.st[pb].kids[j := b]), x', nb)
    ensures var t2 := Node(n.ks, n.cs[es[i - 1].index := t1]);
            && CopyTree(x0, t, es, leaf, i - 1, x', nb, t2)
            && Foot(x.st, b, t1) <= Foot(x'.st, nb, t2) && es[i - 1].block !in Foot(x.st, b, t1)
  {
    FootStored(x0.st, root, t);
    PathPositions(t, es, i);
    PathPositions(t, es, i - 1);
    CopyUp(x0.st, x0.blocks, es[i - 1].block, n, es[i - 1].index, x.st, b, t1, x.blocks, x'.st, nb, x'.blocks);
    hide Rep, Foot, Copied, Linked;
  }

  lemma {:induction false} CopyPathStep(es: seq<PathEntry>, i: nat, x: Layout, fs: seq<PathEntry>, t1: Tree,
                                        rec: NodeRec,
                                        x': Layout, nb: nat, t2: Tree)
    requires CopyPath(es, i, x, fs, t1) && 0 < i && Written(x, es[i - 1].block, rec, x', nb)
    requires rec.InnerRec? && es[i - 1].index < |rec.kids| && rec.kids[es[i - 1].index] == fs[i].block
    requires Foot(x.st, fs[i].block, t1) <= Foot(x'.st, nb, t2) && es[i - 1].block !in Foot(x.st, fs[i].block, t1)
    ensures CopyPath(es, i - 1, x', fs[i - 1 := es[i - 1].(block := nb)], t2)
  {
    var fs' := fs[i - 1 := es[i - 1].(block := nb)];
    forall k | i - 1 <= k < |es| - 1
      ensures Link(x'.st, fs', k)
    {
      assert k >= i ==> Link(x.st, fs, k);
    }
  }

  lemma {:induction false} ReadyLeaf(x0: Layout, root: nat, t: Tree, es: seq<PathEntry>)
    requires Ready(x0, root, t, es)
    ensures es[|es| - 1].block in x0.st
  {
    LinkedAt(x0.st, root, t, es, |es| - 1);
    RepAt(x0.st, root, t, Idx(es[..|es| - 1]));
  }

  lemma {:induction false} CopyDone(x0: Layout, root: nat, t: Tree, es: seq<PathEntry>, leaf: Tree, x: Layout,
                                    fs: seq<PathEntry>, t1: Tree)
    requires Ready(x0, root, t, es) && Copying(x0, t, es, leaf, 0, x, fs, t1)
    ensures Along(t, Idx(es[..|es| - 1])) && t1 == Replace(t, Idx(es[..|es| - 1]), leaf)
    ensures Rep(x.st, fs[0].block, t1) && Foot(x.st, fs[0].block, t1) == x.blocks && Linked(x.st, fs[0].block, fs)
    ensures fs[0].block in x.owned
  {
    var p := Idx(es[..|es| - 1]);
    assert es[..0] == [] && p[0..] == p;
    assert fs[0] == es[0].(block := fs[0].block);
  }
}
