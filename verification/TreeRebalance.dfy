// Borrow and merge steps on the blocks of a whole tree.
module TreeRebalance {
  import opened TreeModel
  import opened TreeSteps
  import opened TreeStore
  import opened TreePath
  import opened TreeLinks
  import opened TreeSplit
  import opened TreeMerge

  // The parent of the last node on a path.
  lemma {:induction false} ParentPlace(st: Store, root: nat, t: Tree, es: seq<PathEntry>)
    requires Rep(st, root, t) && Linked(st, root, es) && |es| > 1 && Along(t, Idx(es[..|es| - 1]))
    ensures var n := |es| - 1;
      var q, i, pb := Idx(es[..n - 1]), es[n - 1].index, es[n - 1].block;
      && Along(t, q) && At(t, q).Node? && i < |At(t, q).cs| && At(t, q).cs[i] == At(t, Idx(es[..n]))
      && Idx(es[..n]) == q + [i]
      && pb in st && st[pb].InnerRec? && st[pb].ks == At(t, q).ks && |st[pb].kids| == |At(t, q).cs|
      && st[pb].kids[i] == es[n].block && Rep(st, pb, At(t, q)) && BlockAt(st, root, q) == pb
      && es[n].block in st && Rep(st, es[n].block, At(t, Idx(es[..n])))
      && Foot(st, pb, At(t, q)) <= Foot(st, root, t)
  {
    var n := |es| - 1;
    PathPositions(t, es, n);
    assert es[..n][..n - 1] == es[..n - 1];
    LinkedAt(st, root, t, es, n - 1);
    LinkedAt(st, root, t, es, n);
    RepAt(st, root, t, Idx(es[..n - 1]));
    RepAt(st, root, t, Idx(es[..n]));
    assert Link(st, es, n - 1);
  }

  // A parent rewritten within its own blocks and fresh ones.
  lemma {:induction false} ParentLaid(x: Layout, x': Layout, root: nat, t: Tree, c: Caps, q: seq<nat>, pb: nat,
                                      s: Tree, F: set<nat>, F': set<nat>)
    requires Laid(x, root, t, c) && Along(t, q) && pb == BlockAt(x.st, root, q)
    requires F == Foot(x.st, pb, At(t, q)) && Rep(x'.st, pb, s) && F' == Foot(x'.st, pb, s)
    requires Agree(x.st, x'.st, x.blocks - F) && F' !! (x.blocks - F) && x'.blocks == x.blocks - F + F'
    requires 0 !in x'.st && x'.owned <= x'.st.Keys * x'.blocks && Fits(x'.st, c)
    ensures Laid(x', root, Replace(t, q, s), c)
  {
    RepAt(x.st, root, t, q);
    WriteRep(x.st, x'.st, root, t, q, s);
  }

  lemma {:induction false} SiblingBlocks(st: Store, pb: nat, n: Tree, a: nat)
    requires Rep(st, pb, n) && n.Node? && a + 1 < |n.cs| == |st[pb].kids|
    ensures var lb, rb, F := st[pb].kids[a], st[pb].kids[a + 1], Foot(st, pb, n);
            var two := Foot(st, lb, n.cs[a]) + Foot(st, rb, n.cs[a + 1]);
            && Rep(st, lb, n.cs[a]) && Rep(st, rb, n.cs[a + 1]) && Foot(st, lb, n.cs[a]) !! Foot(st, rb, n.cs[a + 1])
            && two <= F && pb !in two && lb in two && rb in two && lb != rb && pb in F
  {
    Siblings(st, pb, n, a);
    assert st[pb].kids[a] in Foot(st, st[pb].kids[a], n.cs[a]);
  }

  // Child 0 takes the first entry of child 1, which moves from block rb to rb'.
  lemma {:induction false} BorrowRight(st: Store, st': Store, pb: nat, n: Tree, lb: nat, rb: nat, rb': nat, x: Pair,
                                       y: RecPair, F: set<nat>)
    requires Rep(st, pb, n) && n.Node? && Arity(n) && 1 < |n.cs| == |st[pb].kids| && st[pb].ks == n.ks
             && F == Foot(st, pb, n) && F <= st.Keys
    requires lb == st[pb].kids[0] && rb == st[pb].kids[1] && lb in st && rb in st
    requires var l, r := n.cs[0], n.cs[1];
             && SameKind(l, r) && Arity(l) && Arity(r) && (if r.Leaf? then Count(r) >= 2 else Count(r) >= 1)
             && x == FromRight(l, n.ks[0], r)
    requires st[lb].LeafRec? == st[rb].LeafRec? && Shape(st[rb])
             && (if st[rb].LeafRec? then Size(st[rb]) >= 2 else Size(st[rb]) >= 1)
    requires y == TakeFirst(st[lb], n.ks[0], st[rb]) && (rb' == rb || rb' !in st)
    requires {lb, rb', pb} <= st'.Keys && st'[rb'] == y.r && st'[lb] == y.l
    requires st'[pb] == InnerRec(st[pb].ks[0 := y.k], st[pb].kids[..0] + [lb, rb'] + st[pb].kids[2..])
    requires forall b :: b in st && b != lb && b != rb && b != pb ==> b in st' && st'[b] == st[b]
    ensures Rep(st', pb, SetPair(n, 0, x)) && Foot(st', pb, SetPair(n, 0, x)) == F - {rb} + {rb'}
    ensures lb in F && rb in F && pb != lb && pb != rb && lb != rb
  {
    hide Rep, Foot, KidsRep, KidsFoot;
    SiblingBlocks(st, pb, n, 0);
    var two := Foot(st, lb, n.cs[0]) + Foot(st, rb, n.cs[1]);
    TakeFirstRep(st, lb, n.cs[0], n.ks[0], rb, n.cs[1], st', rb');
    SetPairRep(st, st', pb, n, 0, x, lb, rb', two, two - {lb, rb} + {lb, rb'});
  }

  // Child i takes the last entry of child i-1, which moves from block lb to lb'.
  lemma {:induction false} BorrowLeft(st: Store, st': Store, pb: nat, n: Tree, i: nat, lb: nat, lb': nat, rb: nat,
                                      x: Pair, y: RecPair, F: set<nat>)
    requires Rep(st, pb, n) && n.Node? && Arity(n) && 0 < i < |n.cs| == |st[pb].kids| && st[pb].ks == n.ks
             && F == Foot(st, pb, n) && F <= st.Keys
    requires lb == st[pb].kids[i - 1] && rb == st[pb].kids[i] && lb in st && rb in st
    requires var l, r := n.cs[i - 1], n.cs[i];
             && SameKind(l, r) && Arity(l) && Arity(r) && Count(l) >= 1 && x == FromLeft(l, n.ks[i - 1], r)
    requires st[lb].LeafRec? == st[rb].LeafRec? && Shape(st[lb]) && Size(st[lb]) >= 1
    requires y == TakeLast(st[lb], n.ks[i - 1], st[rb]) && (lb' == lb || lb' !in st)
    requires {lb', rb, pb} <= st'.Keys && st'[lb'] == y.l && st'[rb] == y.r
    requires st'[pb] == InnerRec(st[pb].ks[i - 1 := y.k], st[pb].kids[..i - 1] + [lb', rb] + st[pb].kids[i + 1..])
    requires forall b :: b in st && b != lb && b != rb && b != pb ==> b in st' && st'[b] == st[b]
    ensures Rep(st', pb, SetPair(n, i - 1, x)) && Foot(st', pb, SetPair(n, i - 1, x)) == F - {lb} + {lb'}
    ensures lb in F && rb in F && pb != lb && pb != rb && lb != rb
  {
    hide Rep, Foot, KidsRep, KidsFoot;
    SiblingBlocks(st, pb, n, i - 1);
    var two := Foot(st, lb, n.cs[i - 1]) + Foot(st, rb, n.cs[i]);
    TakeLastRep(st, lb, n.cs[i - 1], n.ks[i - 1], rb, n.cs[i], st', lb');
    SetPairRep(st, st', pb, n, i - 1, x, lb', rb, two, two - {lb, rb} + {lb', rb});
  }

  // Children a and a+1 merge into block mb; block rb is no longer used.
  lemma {:induction false} MergeChildren(st: Store, st': Store, pb: nat, n: Tree, a: nat, lb: nat, rb: nat, mb: nat,
                                         F: set<nat>)
    requires Rep(st, pb, n) && n.Node? && Arity(n) && a + 1 < |n.cs| == |st[pb].kids| && st[pb].ks == n.ks
             && F == Foot(st, pb, n) && F <= st.Keys
    requires lb == st[pb].kids[a] && rb == st[pb].kids[a + 1] && lb in st && rb in st
    requires SameKind(n.cs[a], n.cs[a + 1]) && st[lb].LeafRec? == st[rb].LeafRec? && (mb == lb || mb !in st)
    requires mb in st' && st'[mb] == Join(st[lb], n.ks[a], st[rb])
    requires pb in st' && st'[pb] == InnerRec(st[pb].ks[..a] + st[pb].ks[a + 1..],
             st[pb].kids[..a] + [mb] + st[pb].kids[a + 2..])
    requires forall b :: b in st && b != lb && b != rb && b != pb ==> b in st' && st'[b] == st[b]
    ensures var m := MergeNodes(n.cs[a], n.ks[a], n.cs[a + 1]);
            Rep(st', pb, JoinPair(n, a, m)) && Foot(st', pb, JoinPair(n, a, m)) == F - {lb, rb} + {mb}
    ensures lb in F && rb in F && pb != lb && pb != rb && lb != rb
  {
    hide Rep, Foot, KidsRep, KidsFoot;
    SiblingBlocks(st, pb, n, a);
    var two := Foot(st, lb, n.cs[a]) + Foot(st, rb, n.cs[a + 1]);
    JoinRep(st, lb, n.cs[a], n.ks[a], rb, n.cs[a + 1], st', mb);
    JoinPairRep(st, st', pb, n, a, MergeNodes(n.cs[a], n.ks[a], n.cs[a + 1]), mb, two);
  }
}
