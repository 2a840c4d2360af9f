// Entry points and exits of the split loop.
module TreeInsert {
  import opened TreeModel
  import opened TreeSteps
  import opened TreeStore
  import opened TreeSearch
  import opened TreePath
  import opened TreeLinks
  import opened TreeSplit

  // With the pending entry recorded, the tree is readable.
  lemma {:induction false} PendingHolds(x: Layout, root: nat, t: Tree, d: nat, c: Caps, es: seq<PathEntry>,
                                        ap: Inserting)
    requires Pending(x, root, t, d, c, es, ap) && root != 0
    ensures TreeState(x.st, c, root, ap).Holds(t, d) && Keyed(t)
    ensures CapsOk(c) && ap.block in x.st && 0 !in x.st && es != []
            && (forall k :: 0 <= k < |es| ==> es[k].block in x.owned) && ap.block in x.owned
    ensures var r := x.st[ap.block]; Size(r) == Cap(r, c) && (r.InnerRec? ==> |r.kids| == |r.ks| + 1)
  {
    SplitPlaces(x, root, t, d, c, es, ap);
    PendingKeyed(t, Idx(es[..|es| - 1]), c);
  }

  lemma {:induction false} PendingKeyed(t: Tree, p: seq<nat>, c: Caps)
    requires OverAt(t, p, c) && CapsOk(c)
    ensures Keyed(t)
  {
    var n := At(t, p);
    if n.Node? {
      forall i | 0 <= i < |n.cs|
        ensures Keyed(n.cs[i])
      {
        FilledKeyed(n.cs[i], c, false);
      }
    }
    AroundKeyed(t, p, c, true);
  }

  // A split of the root leaves a complete tree, one level deeper.
  lemma {:induction false} SplitTop(x: Layout, root: nat, t: Tree, d: nat, c: Caps, es: seq<PathEntry>, ap: Inserting,
                                    lb: nat, rb: nat,
                                    x': Layout) returns (t': Tree)
    requires Pending(x, root, t, d, c, es, ap) && |es| == 1 && lb != rb && lb !in x.st && rb !in x.st && lb != 0
             && rb != 0 && root != 0
    requires var r := x.st[ap.block]; Size(r) == Cap(r, c) && (r.InnerRec? ==> |r.kids| == |r.ks| + 1)
    requires var full := Append(x.st[ap.block], ap);
             && x'.st == x.st[lb := HalfLeft(full, c)][rb := HalfRight(full, c)][ap.block :=
                InnerRec([HalfKey(full, c)], [lb, rb])]
             && x'.owned == x.owned + {lb, rb} && x'.blocks == x.blocks + {lb, rb}
    ensures Laid(x', root, t', c) == true
    ensures Good(t', d + 1, c) && Contents(t') == Contents(t)
  {
    PendingHolds(x, root, t, d, c, es, ap);
    SplitPlaces(x, root, t, d, c, es, ap);
    assert es[..0] == [];
    SplitRootOk(t, c, d);
    var y := SplitNode(t, c);
    t' := Node([y.k], [y.l, y.r]);
    SplitTopRep(x, root, t, c, ap, lb, rb, x');
  }

  lemma {:induction false} SplitTopRep(x: Layout, root: nat, t: Tree, c: Caps, ap: Inserting, lb: nat, rb: nat,
                                       x': Layout)
    requires ap.block == root && root in x.st && OverRec(View(x.st, ap), root, t, c)
             && Foot(View(x.st, ap), root, t) == x.blocks
    requires Size(x.st[root]) == Cap(x.st[root], c)
             && (x.st[root].InnerRec? ==> |x.st[root].kids| == |x.st[root].ks| + 1)
    requires 0 !in x.st && x.owned <= x.st.Keys * x.blocks && Fits(x.st, c) && lb != rb && lb !in x.st && rb !in x.st
             && lb != 0
             && rb != 0 && root != 0
    requires var full := Append(x.st[ap.block], ap);
             && x'.st == x.st[lb := HalfLeft(full, c)][rb := HalfRight(full, c)][ap.block :=
                InnerRec([HalfKey(full, c)], [lb, rb])]
             && x'.owned == x.owned + {lb, rb} && x'.blocks == x.blocks + {lb, rb}
    ensures var y := SplitNode(t, c); Laid(x', root, Node([y.k], [y.l, y.r]), c)
  {
    FootStored(View(x.st, ap), root, t);
    SplitRootRep(View(x.st, ap), x'.st, root, t, c, lb, rb);
  }

  lemma {:induction false} PendingDivisible(x: Layout, root: nat, t: Tree, d: nat, c: Caps, es: seq<PathEntry>,
                                            ap: Inserting)
    requires Pending(x, root, t, d, c, es, ap) && |es| > 1 && root != 0
    ensures Divisible(x.st, es, ap, c)
    ensures es[|es| - 2].block != ap.block && es[|es| - 2].block in x.owned && ap.block in x.owned && 0 !in x.st
  {
    PendingHolds(x, root, t, d, c, es, ap);
    SplitPlaces(x, root, t, d, c, es, ap);
  }

  // The parent had room: the tree is complete.
  lemma {:induction false} SplitDone(x: Layout, root: nat, t: Tree, d: nat, c: Caps, es: seq<PathEntry>, ap: Inserting,
                                     rb: nat, x': Layout)
    returns (t': Tree)
    requires Pending(x, root, t, d, c, es, ap) && |es| > 1 && rb !in x.st && rb != 0 && root != 0
    requires Divisible(x.st, es, ap, c) && |x.st[es[|es| - 2].block].ks| < c.inner
    requires x'.st == SplitStore(x.st, es, ap, c, rb) && x'.owned == x.owned + {rb} && x'.blocks == x.blocks + {rb}
    ensures Laid(x', root, t', c) == true
    ensures Good(t', d, c) && Contents(t') == Contents(t)
  {
    hide Rep, Foot, Level, Separated, Sorted, Contents, Replace, SplitChild;
    SplitPlaces(x, root, t, d, c, es, ap);
    var q, i := Idx(es[..|es| - 2]), es[|es| - 2].index;
    t' := Replace(t, q, SplitChild(At(t, q), i, c));
    SplitStep(x, root, t, d, c, es, ap, rb, x'.st, t');
    assert Laid(x', root, t', c);
  }

  // The parent was full: its last key and child are left pending.
  lemma {:induction false} SplitOver(x: Layout, root: nat, t: Tree, d: nat, c: Caps, es: seq<PathEntry>, ap: Inserting,
                                     rb: nat,
                                     st: Store, rec: NodeRec, x': Layout, over: Inserting) returns (t': Tree)
    requires Pending(x, root, t, d, c, es, ap) && |es| > 1 && rb !in x.st && rb != 0 && root != 0
    requires Divisible(x.st, es, ap, c) && |x.st[es[|es| - 2].block].ks| >= c.inner
             && st == SplitStore(x.st, es, ap, c, rb)
    requires st[es[|es| - 2].block] == rec && rec.InnerRec? && |rec.ks| > 0 && |rec.kids| == |rec.ks| + 1
    requires var n := |rec.ks| - 1;
             && over == Inserting(es[|es| - 2].block, rec.ks[n], rec.kids[n + 1], 0)
             && x'.st == st[over.block := InnerRec(rec.ks[..n], rec.kids[..n + 1])]
             && x'.owned == x.owned + {rb} && x'.blocks == x.blocks + {rb}
    ensures Pending(x', root, t', d, c, es[..|es| - 1], over) == true
    ensures Contents(t') == Contents(t)
  {
    hide Rep, Foot, Level, Separated, Sorted, Contents, Replace, SplitChild, KidsFilled, FilledAround, Overfull, Good;
    SplitPlaces(x, root, t, d, c, es, ap);
    var q, i := Idx(es[..|es| - 2]), es[|es| - 2].index;
    t' := Replace(t, q, SplitChild(At(t, q), i, c));
    SplitStep(x, root, t, d, c, es, ap, rb, st, t');
    SplitAgain(root, t', d, c, es, st, rec, x', over);
  }

  // The parent is full as well: its last key and child are now pending.
  lemma {:induction false} SplitAgain(root: nat, t: Tree, d: nat, c: Caps, es: seq<PathEntry>, st: Store, rec: NodeRec,
                                      x': Layout, over: Inserting)
    requires CapsOk(c) && |es| > 1 && 0 !in st && Linked(st, root, es[..|es| - 1])
    requires Rep(st, root, t) && Foot(st, root, t) == x'.blocks && Level(t, d) && Separated(t) && Sorted(Contents(t))
    requires OverAt(t, Idx(es[..|es| - 2]), c)
    requires forall b :: b in st && b != es[|es| - 2].block ==> Size(st[b]) <= Cap(st[b], c)
    requires rec.InnerRec? && |rec.ks| == c.inner + 1
    requires var b, n := es[|es| - 2].block, |rec.ks| - 1;
             && b in st && st[b] == rec && |rec.kids| == |rec.ks| + 1
             && over == Inserting(b, rec.ks[n], rec.kids[n + 1], 0)
             && x'.st == st[b := InnerRec(rec.ks[..n], rec.kids[..n + 1])]
    requires x'.owned <= x'.st.Keys * x'.blocks && forall k :: 0 <= k < |es| - 1 ==> es[k].block in x'.owned
    ensures Pending(x', root, t, d, c, es[..|es| - 1], over)
  {
    hide Rep, Foot, Level, Separated, Sorted, Contents, At, KidsFilled, FilledAround, Overfull;
    var fs := es[..|es| - 1];
    var b, n := es[|es| - 2].block, |rec.ks| - 1;
    assert rec.ks == rec.ks[..n] + [rec.ks[n]] && rec.kids == rec.kids[..n + 1] + [rec.kids[n + 1]];
    assert View(x'.st, over) == st;
    LastKeyPositive(root, t, es, st, rec);
    assert fs[..|fs| - 1] == es[..|es| - 2];
    LinkedDistinct(st, root, t, fs, |fs| - 1);
    forall k | 0 <= k < |fs| - 1
      ensures fs[k].block in x'.st && fs[k].block in st && x'.st[fs[k].block] == st[fs[k].block]
    {
      assert Link(st, fs, k);
    }
    LinkedKeep(st, x'.st, root, fs, |fs|);
    assert fs[..|fs|] == fs;
  }

  lemma {:induction false} LastKeyPositive(root: nat, t: Tree, es: seq<PathEntry>, st: Store, rec: NodeRec)
    requires |es| > 1 && Linked(st, root, es[..|es| - 1]) && Rep(st, root, t) && Separated(t) && Sorted(Contents(t))
    requires Along(t, Idx(es[..|es| - 2])) && es[|es| - 2].block in st && st[es[|es| - 2].block] == rec
    requires rec.InnerRec? && |rec.ks| > 0
    ensures rec.ks[|rec.ks| - 1] > 0
  {
    var fs, q := es[..|es| - 1], Idx(es[..|es| - 2]);
    assert fs[..|fs| - 1] == es[..|es| - 2];
    LinkedAt(st, root, t, fs, |fs| - 1);
    RepAt(st, root, t, q);
    SeparatedAt(t, q);
    StepDown(t, q, 0);
  }

  // ---- adding an entry to a leaf ----

  function InsertAt(es: seq<Entry>, i: nat, e: Entry): seq<Entry>
    requires i <= |es|
  {
    es[..i] + [e] + es[i..]
  }

  lemma SortedInsert(C: seq<Entry>, pos: nat, e: Entry)
    requires Sorted(C) && AtCeil(C, pos, e.key) && e.key > 0 && e.data > 0
    ensures Sorted(InsertAt(C, pos, e))
  {
    var D := InsertAt(C, pos, e);
    forall i, j | 0 <= i < j < |D|
      ensures Le(D, i, j)
    {
      var i', j' := if i < pos then i else i - 1, if j < pos then j else j - 1;
      if i == pos {
        assert CeilAt(C, pos, e.key, j');
      } else if j == pos {
        assert CeilAt(C, pos, e.key, i');
      } else {
        assert Le(C, i', j');
      }
    }
  }

  // Entry e goes to slot i of the leaf at p, where it does not become a new first entry
  // unless the leaf is the leftmost one or the old first key is the same.
  ghost predicate Slotted(t: Tree, p: seq<nat>, i: nat, e: Entry)
  {
    && Along(t, p) && At(t, p).Leaf? && i <= |At(t, p).es|
    && (i == 0 && !AllZero(p) ==> At(t, p).es != [] && At(t, p).es[0].key == e.key)
  }

  lemma {:induction false} InsertOrder(t: Tree, d: nat, p: seq<nat>, i: nat, e: Entry)
    requires Level(t, d) && Separated(t) && Slotted(t, p, i, e)
    ensures var s := Replace(t, p, Leaf(InsertAt(At(t, p).es, i, e)));
            && Level(s, d) && Separated(s)
            && |Before(t, p)| + i <= |Contents(t)| && Contents(s) == InsertAt(Contents(t), |Before(t, p)| + i, e)
  {
    hide Separated, Level, Replace, Before, After, Contents, Along, At;
    var es := At(t, p).es;
    var leaf := Leaf(InsertAt(es, i, e));
    LeafFits(leaf, d - |p|);
    ReplaceLevel(t, p, leaf, d);
    ReplaceContents(t, p, leaf);
    ContentsAt(t, p);
    NodeContents(At(t, p));
    NodeContents(leaf);
    if AllZero(p) {
      SeparatedSetLow(t, p, leaf);
      SetLowZero(Replace(t, p, leaf), p, FirstKey(leaf));
    } else {
      SeparatedAt(t, p);
      SeparatedReplace(t, p, leaf);
    }
  }

  lemma LeafFits(t: Tree, d: int)
    requires t.Leaf?
    ensures Separated(t) && (d == 1 ==> Level(t, 1))
  {
  }

  // The leaf still fits, or is the only node out of bounds.
  lemma {:induction false} InsertFill(t: Tree, c: Caps, p: seq<nat>, i: nat, e: Entry)
    requires CapsOk(c) && Filled(t, c, true) && Along(t, p) && At(t, p).Leaf? && i <= |At(t, p).es|
    ensures var x := InsertAt(At(t, p).es, i, e); var s := Replace(t, p, Leaf(x));
            if |x| <= c.leaf then Filled(s, c, true) else |x| == c.leaf + 1 && OverAt(s, p, c)
  {
    var leaf := Leaf(InsertAt(At(t, p).es, i, e));
    FilledAroundAt(t, p, c, true);
    FilledReplace(t, p, leaf, c, true);
    ReplaceAt(t, p, leaf);
  }

  // The leaf was written without its last entry, which is now pending.
  lemma {:induction false} LeafPending(x: Layout, root: nat, t: Tree, d: nat, c: Caps, es: seq<PathEntry>,
                                       y: seq<Entry>, ap: Inserting, t': Tree)
    requires Laid(x, root, t, c) && Linked(x.st, root, es) && (forall k :: 0 <= k < |es| ==> es[k].block in x.owned)
    requires Along(t, Idx(es[..|es| - 1])) && |y| == c.leaf + 1 && At(t, Idx(es[..|es| - 1])) == Leaf(y[..c.leaf])
    requires ap == Inserting(es[|es| - 1].block, y[c.leaf].key, 0, y[c.leaf].data) && ap.key > 0 && ap.data > 0
    requires t' == Replace(t, Idx(es[..|es| - 1]), Leaf(y))
    requires Level(t', d) && Separated(t') && Sorted(Contents(t')) && OverAt(t', Idx(es[..|es| - 1]), c)
    ensures Pending(x, root, t', d, c, es, ap)
  {
    var p := Idx(es[..|es| - 1]);
    LinkedAt(x.st, root, t, es, |es| - 1);
    RepAt(x.st, root, t, p);
    assert y[..c.leaf] + [y[c.leaf]] == y;
    var v := View(x.st, ap);
    FootStored(x.st, root, t);
    assert v[ap.block] == LeafRec(y);
    assert Foot(v, ap.block, Leaf(y)) == {ap.block} == Foot(x.st, ap.block, At(t, p));
    WriteRep(x.st, v, root, t, p, Leaf(y));
  }

  // The leaf a path ends in.
  lemma {:induction false} PathLeaf(x: Layout, root: nat, t: Tree, c: Caps, path: Path)
    requires Laid(x, root, t, c) && FullPath(x.st, root, t, path)
    ensures path.entries != [] && Linked(x.st, root, path.entries) && Along(t, LeafAt(path))
    ensures var b, i := path.entries[|path.entries| - 1].block, path.entries[|path.entries| - 1].index;
            b in x.st && x.st[b].LeafRec? && i <= |x.st[b].es| && |x.st[b].es| <= c.leaf
              && At(t, LeafAt(path)) == Leaf(x.st[b].es)
  {
    var n := |path.entries| - 1;
    RepAt(x.st, root, t, LeafAt(path));
    assert path.entries[..n] + [path.entries[n]] == path.entries;
    hide At, BlockAt;
    WayLinked(x.st, root, t, path.entries[..n], path.entries[n]);
  }

  // The walk to the insert point of e ends at a slot for e.
  lemma {:induction false} PathSlotted(st: Store, root: nat, t: Tree, path: Path, e: Entry)
    requires FullPath(st, root, t, path) && path.entries[|path.entries| - 1].prevKey <= e.key && Separated(t)
    requires AtCeil(Contents(t), Pos(t, path), e.key)
    ensures Slotted(t, LeafAt(path), path.entries[|path.entries| - 1].index, e)
  {
    var p, f := LeafAt(path), path.entries[|path.entries| - 1];
    LeafReads(t, p, f, path.data);
    SeparatedAt(t, p);
    hide Separated, Before, After;
    if f.index == 0 && !AllZero(p) {
      var pos := Pos(t, path);
      assert Contents(t)[pos] == Contents(t)[pos..][0] == At(t, p).es[0];
      assert CeilAt(Contents(t), pos, e.key, pos);
    }
  }

  // The tree with e in the leaf the walk ends in.
  lemma {:induction false} WalkSlot(x: Layout, root: nat, t: Tree, d: nat, c: Caps, path: Path, e: Entry)
    returns (t': Tree)
    requires Laid(x, root, t, c) && CapsOk(c) && Good(t, d, c) && e.key > 0 && e.data > 0
    requires FullPath(x.st, root, t, path) && path.entries[|path.entries| - 1].prevKey <= e.key
    requires AtCeil(Contents(t), Pos(t, path), e.key)
    ensures Linked(x.st, root, path.entries)
    ensures var b, i := path.entries[|path.entries| - 1].block, path.entries[|path.entries| - 1].index;
            && b in x.st && x.st[b].LeafRec? && i <= |x.st[b].es| && |x.st[b].es| <= c.leaf
            && At(t, LeafAt(path)) == Leaf(x.st[b].es)
            && t' == Replace(t, LeafAt(path), Leaf(InsertAt(x.st[b].es, i, e)))
            && Level(t', d) && Separated(t') && Sorted(Contents(t'))
            && Contents(t') == InsertAt(Contents(t), Pos(t, path), e)
            && if |x.st[b].es| < c.leaf then Good(t', d, c) else OverAt(t', LeafAt(path), c)
  {
    hide Laid, FullPath, Level, Separated, Filled, Sorted, AtCeil, Contents, Replace, Before, Linked, OverAt, Slotted,
      Along, At;
    PathLeaf(x, root, t, c, path);
    PathSlotted(x.st, root, t, path, e);
    var p, i := LeafAt(path), path.entries[|path.entries| - 1].index;
    t' := Replace(t, p, Leaf(InsertAt(At(t, p).es, i, e)));
    InsertOrder(t, d, p, i, e);
    InsertFill(t, c, p, i, e);
    SortedInsert(Contents(t), Pos(t, path), e);
  }

  // The same path after the leaf was written: es differs from fs in its blocks only.
  lemma {:induction false} SamePlace(es: seq<PathEntry>, fs: seq<PathEntry>, k: nat)
    requires |es| == |fs| && k <= |es| && forall i :: 0 <= i < |es| ==> fs[i] == es[i].(block := fs[i].block)
    ensures Idx(es[..k]) == Idx(fs[..k])
    decreases k
  {
    if k > 0 {
      SamePlace(es, fs, k - 1);
      assert es[..k][..k - 1] == es[..k - 1] && fs[..k][..k - 1] == fs[..k - 1];
    }
  }

  lemma {:induction false} PutPending(x: Layout, root: nat, t: Tree, d: nat, c: Caps, es: seq<PathEntry>,
                                      fs: seq<PathEntry>, y: seq<Entry>,
                                      ap: Inserting, t': Tree, s: Tree)
    requires |es| == |fs| > 0
             && forall i :: 0 <= i < |es| ==> fs[i] == es[i].(block := fs[i].block) && fs[i].block in x.owned
    requires Along(t, Idx(es[..|es| - 1])) && |y| == c.leaf + 1
    requires s == Replace(t, Idx(es[..|es| - 1]), Leaf(y[..c.leaf])) && t' == Replace(t, Idx(es[..|es| - 1]), Leaf(y))
    requires Laid(x, root, s, c) && Linked(x.st, root, fs)
    requires ap == Inserting(fs[|fs| - 1].block, y[c.leaf].key, 0, y[c.leaf].data)
    requires Level(t', d) && Separated(t') && Sorted(Contents(t')) && OverAt(t', Idx(es[..|es| - 1]), c)
    ensures Pending(x, root, t', d, c, fs, ap) == true
  {
    var p := Idx(es[..|es| - 1]);
    SamePlace(es, fs, |es| - 1);
    ReplaceAt(t, p, Leaf(y[..c.leaf]));
    ReplaceAt(t, p, Leaf(y));
    LeafPositive(t', p);
    ReplaceTwice(t, p, Leaf(y[..c.leaf]), Leaf(y));
    LeafPending(x, root, s, d, c, fs, y, ap, t');
  }
}
