// A short node takes an entry from a sibling or is merged with it, in the blocks of a whole tree.
module TreeBorrow {
  import opened TreeModel
  import opened TreeSteps
  import opened TreeStore
  import opened TreeSearch
  import opened TreePath
  import opened TreeLinks
  import opened TreeSplit
  import opened TreeMerge
  import opened TreeRemove
  import opened TreeRebalance
  import opened TreeKeys
  import opened TreeShort

  // What a short node's parent at q looks like; n is that parent.
  ghost predicate Scene(x: Layout, root: nat, t: Tree, t0: Tree, d: nat, c: Caps, es: seq<PathEntry>, q: seq<nat>,
                        n: Tree, sb: nat)
  {
    && |es| > 1 && Short(x, root, t, t0, d, c, es) && CapsOk(c)
    && q == Idx(es[..|es| - 2]) && Along(t, q) && Along(t0, q) && n == At(t, q) && |q| < d
    && Idx(es[..|es| - 1]) == q + [es[|es| - 2].index] && ShortAt(t, t0, q + [es[|es| - 2].index], c)
    && n.Node? && Arity(n) && |n.ks| >= 1 && CountOk(n, c, q == [])
    && Family(x.st, c, es[|es| - 2].block, es[|es| - 2].index, es[|es| - 1].block, sb)
    && Hint(x.st[es[|es| - 2].block], es[|es| - 2])
    && x.st[es[|es| - 2].block].ks == n.ks && |x.st[es[|es| - 2].block].kids| == |n.cs|
    && Rep(x.st, es[|es| - 2].block, n) && BlockAt(x.st, root, q) == es[|es| - 2].block
    && Foot(x.st, es[|es| - 2].block, n) <= x.blocks <= x.st.Keys
    && At(t, q + [es[|es| - 2].index]) == n.cs[es[|es| - 2].index]
    && x.st[es[|es| - 1].block].LeafRec? == n.cs[es[|es| - 2].index].Leaf?
  }

  lemma {:induction false} SceneOf(x: Layout, root: nat, t: Tree, t0: Tree, d: nat, c: Caps, es: seq<PathEntry>)
    returns (q: seq<nat>, n: Tree, sb: nat)
    requires Short(x, root, t, t0, d, c, es)
    ensures Scene(x, root, t, t0, d, c, es, q, n, sb)
    ensures Above(n.cs[Sibling(es[|es| - 2].index)], c) <==> Size(x.st[sb]) > Cap(x.st[sb], c) / 2
  {
    var m := |es| - 1;
    q := Idx(es[..m - 1]);
    ShortFamily(x, root, t, t0, d, c, es);
    n := At(t, q);
    sb := x.st[es[m - 1].block].kids[Sibling(es[m - 1].index)];
    ParentPlace(x.st, root, t, es);
    hide Rep, Foot, Level, Separated, Sorted, Filled, FilledAround, Contents, Linked, Along, At, Replace, BlockAt;
    ShortParent(t, t0, q, es[m - 1].index, c, d);
  }

  // Values: the sibling gives an entry.
  lemma {:induction false} BorrowValue(t: Tree, t0: Tree, q: seq<nat>, i: nat, c: Caps, d: nat) returns (z: Pair)
    requires CapsOk(c) && ShortAt(t, t0, q + [i], c) && Level(t, d) && |q| < d && Along(t, q) && Along(t0, q)
    requires At(t, q).Node? && |At(t, q).ks| >= 1 && Sibling(i) < |At(t, q).cs| && Above(At(t, q).cs[Sibling(i)], c)
    ensures var n, a := At(t, q), if i == 0 then 0 else i - 1;
            && Arity(n) && i < |n.cs| && a < |n.ks| && SameKind(n.cs[a], n.cs[a + 1]) && Arity(n.cs[a])
            && Arity(n.cs[a + 1])
            && (i == 0 ==> (if n.cs[1].Leaf? then Count(n.cs[1]) >= 2 else Count(n.cs[1]) >= 1)
                           && z == FromRight(n.cs[0], n.ks[0], n.cs[1]))
            && (i != 0 ==> Count(n.cs[a]) >= 1 && z == FromLeft(n.cs[a], n.ks[a], n.cs[i]))
            && Rebalanced(At(t0, q), n, i, SetPair(n, a, z), c, d - |q|)
  {
    ShortParent(t, t0, q, i, c, d);
    assert At(t, q + [i]) == At(t, q).cs[i];
    hide Level, Separated, Filled, FilledAround, KidsFilled, Contents, Along, At, Replace, Rebalanced, Emptied,
      FromLeft, FromRight;
    z := BorrowPair(At(t0, q), At(t, q), i, c, d - |q|);
  }

  // Store and owned blocks after child 0 took the first entry of child 1.
  ghost predicate TookFirst(x: Layout, pb: nat, b: nat, sb: nat, y: RecPair, nb: nat, x': Layout)
    requires pb in x.st && x.st[pb].InnerRec? && |x.st[pb].ks| >= 1 && |x.st[pb].kids| >= 2
  {
    && nb != 0 && (if sb in x.owned then nb == sb else nb !in x.st)
    && x'.st == x.st[nb := y.r][b := y.l][pb :=
       InnerRec(x.st[pb].ks[0 := y.k], x.st[pb].kids[..0] + [b, nb] + x.st[pb].kids[2..])]
    && x'.owned == x.owned + {nb} && x'.blocks == x.blocks - {sb} + {nb}
  }

  lemma {:induction false} TookFirstFits(x: Layout, c: Caps, pb: nat, b: nat, sb: nat, k: nat, y: RecPair, nb: nat,
                                         x': Layout)
    requires CapsOk(c) && Fits(x.st, c) && Family(x.st, c, pb, 0, b, sb) && Size(x.st[sb]) > Cap(x.st[sb], c) / 2
    requires |x.st[pb].ks| >= 1 && y == TakeFirst(x.st[b], k, x.st[sb]) && TookFirst(x, pb, b, sb, y, nb, x')
    ensures Fits(x'.st, c) && Size(y.r) <= Cap(y.r, c)
  {
  }

  // The parent in block pb as a record: what a borrow or merge starts from.
  ghost predicate Parent(st: Store, c: Caps, n: Tree, pb: nat, i: nat, b: nat, sb: nat, F: set<nat>)
  {
    && n.Node? && Arity(n) && |n.ks| >= 1 && Rep(st, pb, n) && F == Foot(st, pb, n) && F <= st.Keys
    && Family(st, c, pb, i, b, sb) && st[pb].ks == n.ks && |st[pb].kids| == |n.cs|
  }

  lemma {:induction false} TookFirstRep(x: Layout, c: Caps, n: Tree, pb: nat, b: nat, sb: nat, z: Pair, y: RecPair,
                                        nb: nat, x': Layout, F: set<nat>)
    requires Parent(x.st, c, n, pb, 0, b, sb, F) && CapsOk(c)
    requires Size(x.st[sb]) > Cap(x.st[sb], c) / 2 && y == TakeFirst(x.st[b], n.ks[0], x.st[sb])
    requires SameKind(n.cs[0], n.cs[1]) && Arity(n.cs[0]) && Arity(n.cs[1])
    requires (if n.cs[1].Leaf? then Count(n.cs[1]) >= 2 else Count(n.cs[1]) >= 1)
             && z == FromRight(n.cs[0], n.ks[0], n.cs[1])
    requires TookFirst(x, pb, b, sb, y, nb, x')
    ensures Rep(x'.st, pb, SetPair(n, 0, z)) && Foot(x'.st, pb, SetPair(n, 0, z)) == F - {sb} + {nb}
    ensures b in F && sb in F && pb in F
  {
    TopFoot(x.st, pb, n);
    hide Rep, Foot, FromRight, TakeFirst;
    BorrowRight(x.st, x'.st, pb, n, b, sb, nb, z, y, F);
  }

  // The rewritten parent put back into the whole tree.
  lemma {:induction false} ParentBack(x: Layout, root: nat, t: Tree, c: Caps, q: seq<nat>, pb: nat, s: Tree,
                                      F: set<nat>, F': set<nat>, x': Layout)
    requires Laid(x, root, t, c) && Along(t, q) && BlockAt(x.st, root, q) == pb && F == Foot(x.st, pb, At(t, q))
             && x.blocks <= x.st.Keys
    requires Rep(x'.st, pb, s) && F' == Foot(x'.st, pb, s) && F' !! (x.blocks - F) && x'.blocks == x.blocks - F + F'
    requires Outside(x, pb, At(t, q), x'.st) && 0 !in x'.st && x'.owned <= x'.st.Keys * x'.blocks && Fits(x'.st, c)
    ensures Laid(x', root, Replace(t, q, s), c)
  {
    hide Laid, Fits, Rep, Foot, Along, At, Replace, BlockAt;
    ParentLaid(x, x', root, t, c, q, pb, s, F, F');
  }

  lemma ShortLaid(x: Layout, root: nat, t: Tree, t0: Tree, d: nat, c: Caps, es: seq<PathEntry>)
    requires Short(x, root, t, t0, d, c, es)
    ensures Laid(x, root, t, c) && 0 !in x.st && x.owned <= x.st.Keys * x.blocks && Fits(x.st, c) && Rep(x.st, root, t)
    ensures Level(t, d) && Sorted(Contents(t)) && Linked(x.st, root, es) && OwnedPath(x.owned, es)
            && Hints(x.st, es[..|es| - 1])
  {
  }

  // The short leaf was emptied and is the leftmost below its parent.
  ghost predicate LowLeaf(n: Tree, i: nat, c: Caps)
    requires n.Node? && i < |n.cs|
  {
    i == 0 && n.cs[i].Leaf? && c.leaf / 2 == 1
  }

  // The whole tree once the parent was rewritten as s.
  lemma {:induction false} Settle(x: Layout, root: nat, t: Tree, t0: Tree, d: nat, c: Caps, es: seq<PathEntry>,
                                  q: seq<nat>, n: Tree, sb: nat,
                                  s: Tree, F: set<nat>, F': set<nat>, x': Layout, low: bool) returns (u: Tree, w: Tree)
    requires Scene(x, root, t, t0, d, c, es, q, n, sb) && es[|es| - 2].index < |n.cs|
             && low == LowLeaf(n, es[|es| - 2].index, c)
    requires Rebalanced(At(t0, q), n, es[|es| - 2].index, s, c, d - |q|)
    requires F == Foot(x.st, es[|es| - 2].block, n) && Rep(x'.st, es[|es| - 2].block, s)
             && F' == Foot(x'.st, es[|es| - 2].block, s)
    requires F' !! (x.blocks - F) && x'.blocks == x.blocks - F + F' && Outside(x, es[|es| - 2].block, n, x'.st)
    requires 0 !in x'.st && x'.owned <= x'.st.Keys * x'.blocks && Fits(x'.st, c) && OwnedPath(x'.owned, es[..|es| - 2])
    ensures Along(u, q) && w == if low then SetLow(u, q, FirstKey(s)) else u
    ensures Mended(x', root, u, d, c, es[..|es| - 2]) && Contents(u) == Contents(t)
    ensures Linked(x'.st, root, es[..|es| - 1])
    ensures Level(w, d) && Separated(w) && Contents(w) == Contents(t) && Sorted(Contents(w))
    ensures Along(w, q) && At(w, q) == s && FilledAround(w, q, c, true)
    ensures CountOk(s, c, q == []) ==> Good(w, d, c)
  {
    hide Rep, Foot, Family, Fits, Short, ShortAt, Level, Separated, Sorted, Contents, Along, At, Replace, SetLow,
      BlockAt, Linked, Hints, Laid, Outside, FilledAround, CountOk, Good;
    var k := |es| - 2;
    ShortLaid(x, root, t, t0, d, c, es);
    ParentBack(x, root, t, c, q, es[k].block, s, F, F', x');
    u := Replace(t, q, s);
    ReplaceAt(t, q, s);
    w := if low then SetLow(u, q, FirstKey(s)) else u;
    Refitted(t, t0, q, es[k].index, s, c, d, low, u, w);
    HintsTop(x.st, es, k);
    PathAbove(x, root, t, es, k, x'.st);
    assert es[..k + 1] == es[..|es| - 1];
  }

  lemma HintsTop(st: Store, es: seq<PathEntry>, k: nat)
    requires k < |es| && Hints(st, es[..|es| - 1])
    ensures Hints(st, es[..k])
  {
    forall j | 0 <= j < k
      ensures es[..k][j].block in st && Hint(st[es[..k][j].block], es[..k][j])
    {
      assert es[..|es| - 1][j] == es[..k][j];
    }
  }

  // ---- the first entry of the right sibling ----

  lemma {:induction false} BorrowedFirst(x: Layout, root: nat, t: Tree, t0: Tree, d: nat, c: Caps, es: seq<PathEntry>,
                                         q: seq<nat>, n: Tree,
                                         sb: nat, y: RecPair, nb: nat, x': Layout) returns (u: Tree, w: Tree)
    requires Scene(x, root, t, t0, d, c, es, q, n, sb) && es[|es| - 2].index == 0 && Above(n.cs[1], c)
    requires Size(x.st[sb]) > Cap(x.st[sb], c) / 2 && y == TakeFirst(x.st[es[|es| - 1].block], n.ks[0], x.st[sb])
    requires TookFirst(x, es[|es| - 2].block, es[|es| - 1].block, sb, y, nb, x')
    ensures Along(u, q) && Mended(x', root, u, d, c, es[..|es| - 2]) == true
    ensures y.l.LeafRec? ==> y.l.es != []
    ensures w == if y.l.LeafRec? && c.leaf / 2 == 1 then SetLow(u, q, y.l.es[0].key) else u
    ensures Good(w, d, c) && Contents(w) == Contents(t)
  {
    hide Rep, Foot, Fits, Short, ShortAt, Level, Separated, Sorted, Contents, Along, At, Replace, SetLow, BlockAt,
      Linked, Laid, Outside, FilledAround, Good, Mended, Rebalanced;
    var pb, b, F := es[|es| - 2].block, es[|es| - 1].block, Foot(x.st, es[|es| - 2].block, n);
    ShortLaid(x, root, t, t0, d, c, es);
    var z := BorrowValue(t, t0, q, 0, c, d);
    var s := SetPair(n, 0, z);
    TookFirstFits(x, c, pb, b, sb, n.ks[0], y, nb, x');
    TookFirstRep(x, c, n, pb, b, sb, z, y, nb, x', F);
    TookFirstOutside(x, c, n, pb, b, sb, y, nb, x', F);
    u, w := Settle(x, root, t, t0, d, c, es, q, n, sb, s, F, F - {sb} + {nb}, x', LowLeaf(n, 0, c));
    if n.cs[0].Leaf? {
      FirstOfLeaf(x.st, pb, n, b, sb, z, y, s);
    }
  }

  lemma TookFirstOutside(x: Layout, c: Caps, n: Tree, pb: nat, b: nat, sb: nat, y: RecPair, nb: nat, x': Layout,
                         F: set<nat>)
    requires Parent(x.st, c, n, pb, 0, b, sb, F) && TookFirst(x, pb, b, sb, y, nb, x') && b in F && sb in F && pb in F
    ensures Outside(x, pb, n, x'.st)
  {
    hide Rep, Foot;
  }

  // The borrowed entry is the first below the parent when the leaf was empty.
  lemma {:induction false} FirstOfLeaf(st: Store, pb: nat, n: Tree, b: nat, sb: nat, z: Pair, y: RecPair, s: Tree)
    requires n.Node? && Arity(n) && |n.ks| >= 1 && Rep(st, pb, n) && |st[pb].kids| == |n.cs| && st[pb].kids[0] == b
             && st[pb].kids[1] == sb
    requires n.cs[0].Leaf? && n.cs[1].Leaf? && Count(n.cs[1]) >= 2 && z == FromRight(n.cs[0], n.ks[0], n.cs[1])
             && s == SetPair(n, 0, z)
    requires b in st && sb in st && st[b].LeafRec? && st[sb].LeafRec? && Size(st[sb]) >= 2
             && y == TakeFirst(st[b], n.ks[0], st[sb])
    ensures y.l.LeafRec? && y.l.es != [] && Contents(s) != [] && FirstKey(s) == y.l.es[0].key
  {
    SiblingBlocks(st, pb, n, 0);
    assert s.cs[0] == z.l && z.l == Leaf(y.l.es);
    hide Rep, Flat;
    NodeContents(z.l);
    FlatHead(s.cs);
  }

  // ---- the last entry of the left sibling ----

  ghost predicate TookLast(x: Layout, pb: nat, i: nat, b: nat, sb: nat, y: RecPair, nb: nat, x': Layout)
    requires pb in x.st && x.st[pb].InnerRec? && 0 < i <= |x.st[pb].ks| && |x.st[pb].kids| > i
  {
    && nb != 0 && (if sb in x.owned then nb == sb else nb !in x.st)
    && x'.st == x.st[nb := y.l][b := y.r]
         [pb := InnerRec(x.st[pb].ks[i - 1 := y.k], x.st[pb].kids[..i - 1] + [nb, b] + x.st[pb].kids[i + 1..])]
    && x'.owned == x.owned + {nb} && x'.blocks == x.blocks - {sb} + {nb}
  }

  lemma {:induction false} TookLastFits(x: Layout, c: Caps, pb: nat, i: nat, b: nat, sb: nat, k: nat, y: RecPair,
                                        nb: nat, x': Layout)
    requires CapsOk(c) && Fits(x.st, c) && Family(x.st, c, pb, i, b, sb) && 0 < i <= |x.st[pb].ks|
    requires y == TakeLast(x.st[sb], k, x.st[b]) && TookLast(x, pb, i, b, sb, y, nb, x')
    ensures Fits(x'.st, c) && Size(y.l) <= Cap(y.l, c)
  {
  }

  lemma {:induction false} TookLastRep(x: Layout, c: Caps, n: Tree, pb: nat, i: nat, b: nat, sb: nat, z: Pair,
                                       y: RecPair, nb: nat, x': Layout, F: set<nat>)
    requires Parent(x.st, c, n, pb, i, b, sb, F) && CapsOk(c) && 0 < i <= |n.ks|
    requires y == TakeLast(x.st[sb], n.ks[i - 1], x.st[b])
    requires SameKind(n.cs[i - 1], n.cs[i]) && Arity(n.cs[i - 1]) && Arity(n.cs[i])
    requires Count(n.cs[i - 1]) >= 1 && z == FromLeft(n.cs[i - 1], n.ks[i - 1], n.cs[i])
    requires TookLast(x, pb, i, b, sb, y, nb, x')
    ensures Rep(x'.st, pb, SetPair(n, i - 1, z)) && Foot(x'.st, pb, SetPair(n, i - 1, z)) == F - {sb} + {nb}
    ensures b in F && sb in F && pb in F
  {
    TopFoot(x.st, pb, n);
    hide Rep, Foot, FromLeft, TakeLast;
    BorrowLeft(x.st, x'.st, pb, n, i, sb, nb, b, z, y, F);
  }

  lemma TookLastOutside(x: Layout, c: Caps, n: Tree, pb: nat, i: nat, b: nat, sb: nat, y: RecPair, nb: nat, x': Layout,
                        F: set<nat>)
    requires Parent(x.st, c, n, pb, i, b, sb, F) && 0 < i <= |n.ks| && TookLast(x, pb, i, b, sb, y, nb, x') && b in F
             && sb in F && pb in F
    ensures Outside(x, pb, n, x'.st)
  {
    hide Rep, Foot;
  }

  lemma {:induction false} BorrowedLast(x: Layout, root: nat, t: Tree, t0: Tree, d: nat, c: Caps, es: seq<PathEntry>,
                                        q: seq<nat>, n: Tree,
                                        sb: nat, i: nat, y: RecPair, nb: nat, x': Layout) returns (u: Tree)
    requires Scene(x, root, t, t0, d, c, es, q, n, sb) && es[|es| - 2].index == i && 0 < i <= |n.ks|
             && Above(n.cs[i - 1], c)
    requires y == TakeLast(x.st[sb], n.ks[i - 1], x.st[es[|es| - 1].block])
    requires TookLast(x, es[|es| - 2].block, i, es[|es| - 1].block, sb, y, nb, x')
    ensures Laid(x', root, u, c) == true
    ensures Good(u, d, c) && Contents(u) == Contents(t)
  {
    hide Rep, Foot, Fits, Short, ShortAt, Level, Separated, Sorted, Contents, Along, At, Replace, SetLow, BlockAt,
      Linked, Laid, Outside, FilledAround, Good, Rebalanced;
    var pb, b, F := es[|es| - 2].block, es[|es| - 1].block, Foot(x.st, es[|es| - 2].block, n);
    ShortLaid(x, root, t, t0, d, c, es);
    var z := BorrowValue(t, t0, q, i, c, d);
    var s := SetPair(n, i - 1, z);
    TookLastFits(x, c, pb, i, b, sb, n.ks[i - 1], y, nb, x');
    TookLastRep(x, c, n, pb, i, b, sb, z, y, nb, x', F);
    TookLastOutside(x, c, n, pb, i, b, sb, y, nb, x', F);
    var w: Tree;
    u, w := Settle(x, root, t, t0, d, c, es, q, n, sb, s, F, F - {sb} + {nb}, x', false);
  }

  // ---- merging the two nodes ----

  // Children a and a+1, in blocks lb and rb, became one node in block mb; block rb is free.
  ghost predicate Merged(x: Layout, pb: nat, a: nat, lb: nat, rb: nat, mb: nat, m: NodeRec, x': Layout)
    requires pb in x.st && x.st[pb].InnerRec? && a < |x.st[pb].ks| && a + 1 < |x.st[pb].kids|
  {
    && mb != 0 && (if lb in x.owned then mb == lb else mb !in x.st)
    && x'.st == (x.st[mb := m][pb :=
       InnerRec(x.st[pb].ks[..a] + x.st[pb].ks[a + 1..], x.st[pb].kids[..a] + [mb] + x.st[pb].kids[a + 2..])])
               - ({rb} * x.owned)
    && x'.owned == x.owned + {mb} - {rb} && x'.blocks == x.blocks - {lb} + {mb} - {rb}
  }

  lemma {:induction false} MergeValue(t: Tree, t0: Tree, q: seq<nat>, i: nat, c: Caps, d: nat)
    requires CapsOk(c) && ShortAt(t, t0, q + [i], c) && Level(t, d) && |q| < d && Along(t, q) && Along(t0, q)
    requires At(t, q).Node? && |At(t, q).ks| >= 1 && Sibling(i) < |At(t, q).cs| && !Above(At(t, q).cs[Sibling(i)], c)
    ensures var n, a := At(t, q), if i == 0 then 0 else i - 1;
            && Arity(n) && i < |n.cs| && a < |n.ks| && SameKind(n.cs[a], n.cs[a + 1])
            && var m := MergeNodes(n.cs[a], n.ks[a], n.cs[a + 1]);
               Count(m) <= MaxCount(m, c) && Rebalanced(At(t0, q), n, i, JoinPair(n, a, m), c, d - |q|)
  {
    ShortParent(t, t0, q, i, c, d);
    assert At(t, q + [i]) == At(t, q).cs[i];
    hide Level, Separated, Filled, FilledAround, KidsFilled, Contents, Along, At, Replace, Rebalanced, Emptied,
      MergeNodes;
    JoinNodes(At(t0, q), At(t, q), i, c, d - |q|);
  }

  // The two siblings in order: child a in block lb, child a+1 in block rb.
  ghost predicate Ordered(i: nat, a: nat, b: nat, sb: nat, lb: nat, rb: nat)
  {
    if i == 0 then a == 0 && lb == b && rb == sb else a == i - 1 && lb == sb && rb == b
  }

  lemma {:induction false} MergedFits(x: Layout, c: Caps, pb: nat, i: nat, b: nat, sb: nat, a: nat, lb: nat, rb: nat,
                                      k: nat, mb: nat, m: NodeRec, x': Layout)
    requires CapsOk(c) && Fits(x.st, c) && Family(x.st, c, pb, i, b, sb) && Ordered(i, a, b, sb, lb, rb)
             && a < |x.st[pb].ks|
    requires Size(x.st[sb]) <= Cap(x.st[sb], c) / 2 && m == Join(x.st[lb], k, x.st[rb])
             && Merged(x, pb, a, lb, rb, mb, m, x')
    ensures Fits(x'.st, c) && Size(m) <= Cap(m, c)
  {
  }

  lemma {:induction false} MergedRep(x: Layout, c: Caps, n: Tree, pb: nat, i: nat, b: nat, sb: nat, a: nat, lb: nat,
                                     rb: nat, mb: nat,
                                     m: NodeRec, x': Layout, F: set<nat>)
    requires Parent(x.st, c, n, pb, i, b, sb, F) && Ordered(i, a, b, sb, lb, rb) && a < |n.ks|
             && SameKind(n.cs[a], n.cs[a + 1])
    requires m == Join(x.st[lb], n.ks[a], x.st[rb]) && Merged(x, pb, a, lb, rb, mb, m, x')
    ensures var s := JoinPair(n, a, MergeNodes(n.cs[a], n.ks[a], n.cs[a + 1]));
            Rep(x'.st, pb, s) && Foot(x'.st, pb, s) == F - {lb, rb} + {mb}
    ensures lb in F && rb in F && pb in F && lb != rb && mb != rb
  {
    TopFoot(x.st, pb, n);
    hide Rep, Foot, Join, MergeNodes, JoinPair;
    MergeChildren(x.st, x'.st, pb, n, a, lb, rb, mb, F);
  }

  lemma MergedOutside(x: Layout, n: Tree, pb: nat, a: nat, lb: nat, rb: nat, mb: nat, m: NodeRec, x': Layout,
                      F: set<nat>)
    requires pb in x.st && x.st[pb].InnerRec? && a < |x.st[pb].ks| && a + 1 < |x.st[pb].kids|
    requires F == Foot(x.st, pb, n) && Merged(x, pb, a, lb, rb, mb, m, x') && lb in F && rb in F && pb in F
    ensures Outside(x, pb, n, x'.st)
  {
    hide Foot;
  }

  lemma {:induction false} Joined(x: Layout, root: nat, t: Tree, t0: Tree, d: nat, c: Caps, es: seq<PathEntry>,
                                  q: seq<nat>, n: Tree, sb: nat,
                                  i: nat, a: nat, lb: nat, rb: nat, mb: nat, m: NodeRec, x': Layout)
                                    returns (u: Tree, w: Tree)
    requires Scene(x, root, t, t0, d, c, es, q, n, sb) && es[|es| - 2].index == i && !Above(n.cs[Sibling(i)], c)
    requires Ordered(i, a, es[|es| - 1].block, sb, lb, rb) && a < |n.ks| && Size(x.st[sb]) <= Cap(x.st[sb], c) / 2
    requires m == Join(x.st[lb], n.ks[a], x.st[rb]) && Merged(x, es[|es| - 2].block, a, lb, rb, mb, m, x')
    ensures Along(u, q) && Mended(x', root, u, d, c, es[..|es| - 2]) == true
    ensures m.LeafRec? ==> m.es != []
    ensures w == if i == 0 && m.LeafRec? && c.leaf / 2 == 1 then SetLow(u, q, m.es[0].key) else u
    ensures Level(w, d) && Separated(w) && Contents(w) == Contents(t) && Sorted(Contents(w)) && ShrunkAt(w, q, c)
    ensures Linked(x'.st, root, es[..|es| - 1]) && OwnedPath(x'.owned, es[..|es| - 1])
  {
    hide Rep, Foot, Fits, Short, ShortAt, Level, Separated, Sorted, Contents, Along, At, Replace, SetLow, BlockAt,
      Linked, Laid, Outside, FilledAround,
      Good, Mended, Rebalanced, MergeNodes, ShrunkAt, KidsFilled;
    var pb, b, F := es[|es| - 2].block, es[|es| - 1].block, Foot(x.st, es[|es| - 2].block, n);
    ShortLaid(x, root, t, t0, d, c, es);
    MergeValue(t, t0, q, i, c, d);
    var s := JoinPair(n, a, MergeNodes(n.cs[a], n.ks[a], n.cs[a + 1]));
    MergedFits(x, c, pb, i, b, sb, a, lb, rb, n.ks[a], mb, m, x');
    MergedRep(x, c, n, pb, i, b, sb, a, lb, rb, mb, m, x', F);
    MergedOutside(x, n, pb, a, lb, rb, mb, m, x', F);
    MergedOwned(x, root, t, es, n, pb, a, lb, rb, mb, m, x');
    u, w := Settle(x, root, t, t0, d, c, es, q, n, sb, s, F, F - {lb, rb} + {mb}, x', LowLeaf(n, i, c));
    RebalancedParts(At(t0, q), n, i, s, c, d - |q|);
    if x.st[b].LeafRec? {
      FirstOfMerge(x.st, pb, n, a, lb, rb, m, s);
    }
    ShrunkFrom(w, q, n, s, c);
  }

  // The freed block is not on the path.
  lemma {:induction false} MergedOwned(x: Layout, root: nat, t: Tree, es: seq<PathEntry>, n: Tree, pb: nat, a: nat,
                                       lb: nat, rb: nat, mb: nat, m: NodeRec, x': Layout)
    requires |es| > 1 && Rep(x.st, root, t) && Linked(x.st, root, es) && Along(t, Idx(es[..|es| - 2]))
             && n == At(t, Idx(es[..|es| - 2]))
    requires pb == es[|es| - 2].block && pb in x.st && x.st[pb].InnerRec? && a < |x.st[pb].ks|
             && a + 1 < |x.st[pb].kids|
    requires Merged(x, pb, a, lb, rb, mb, m, x') && OwnedPath(x.owned, es) && rb in Foot(x.st, pb, n) && rb != pb
    ensures OwnedPath(x'.owned, es[..|es| - 2]) && OwnedPath(x'.owned, es[..|es| - 1])
  {
    hide Rep, Foot, Along, At, Idx, Linked;
    var top := es[..|es| - 1];
    forall k | 0 <= k < |top| - 1
      ensures top[k].block in x'.owned
    {
      LinkedApart(x.st, root, t, es, k, |es| - 2);
    }
  }

  lemma ShrunkFrom(w: Tree, q: seq<nat>, n: Tree, s: Tree, c: Caps)
    requires Along(w, q) && At(w, q) == s && FilledAround(w, q, c, true) && s.Node? && Arity(s) && KidsFilled(s, c)
    requires n.Node? && CountOk(n, c, q == []) && |s.ks| == |n.ks| - 1
    ensures ShrunkAt(w, q, c)
  {
  }

  lemma RebalancedParts(n0: Tree, n: Tree, i: nat, s: Tree, c: Caps, d: nat)
    requires Rebalanced(n0, n, i, s, c, d)
    ensures KidsFilled(s, c) && Arity(s) && s.Node? && Contents(s) != []
            && forall k :: 0 <= k < |s.cs| ==> Contents(s.cs[k]) != []
  {
  }

  lemma {:induction false} FirstOfMerge(st: Store, pb: nat, n: Tree, a: nat, lb: nat, rb: nat, m: NodeRec, s: Tree)
    requires n.Node? && Arity(n) && a < |n.ks| && Rep(st, pb, n) && |st[pb].kids| == |n.cs| && st[pb].kids[a] == lb
             && st[pb].kids[a + 1] == rb
    requires SameKind(n.cs[a], n.cs[a + 1]) && s == JoinPair(n, a, MergeNodes(n.cs[a], n.ks[a], n.cs[a + 1]))
    requires s.Node? && (forall k :: 0 <= k < |s.cs| ==> Contents(s.cs[k]) != []) && lb in st && rb in st
             && st[lb].LeafRec? && st[rb].LeafRec? && m == Join(st[lb], n.ks[a], st[rb])
    ensures m.LeafRec? && m.es != [] && Contents(s) != [] && (a == 0 ==> FirstKey(s) == m.es[0].key)
  {
    SiblingBlocks(st, pb, n, a);
    assert s.cs[a] == Leaf(m.es);
    hide Rep, Flat;
    NodeContents(s.cs[a]);
    FlatHead(s.cs);
  }

  // ---- what the methods need to know ----

  lemma SceneRecs(x: Layout, root: nat, t: Tree, t0: Tree, d: nat, c: Caps, es: seq<PathEntry>, q: seq<nat>, n: Tree,
                  sb: nat)
    requires Scene(x, root, t, t0, d, c, es, q, n, sb)
    ensures |es| > 1 && CapsOk(c) && root != 0 && q == Idx(es[..|es| - 2]) && 0 !in x.st
            && x.owned <= x.st.Keys * x.blocks
            && Fits(x.st, c) && n.Node? && |n.ks| >= 1
    ensures var pb, i, b := es[|es| - 2].block, es[|es| - 2].index, es[|es| - 1].block;
            && Family(x.st, c, pb, i, b, sb) && x.st[pb].ks == n.ks && |x.st[pb].kids| == |n.cs| == |n.ks| + 1
            && i <= |n.ks|
            && pb in x.owned && b in x.owned
            && (i == 0 ==> es[|es| - 2].nextKey == n.ks[0]) && (i > 0 ==> es[|es| - 2].prevKey == n.ks[i - 1])
            && pb in x.st && x.st[pb].InnerRec? && Sibling(i) < |x.st[pb].kids| && sb == x.st[pb].kids[Sibling(i)]
            && sb in x.st
            && x.st[b].LeafRec? == x.st[sb].LeafRec? && Size(x.st[sb]) <= Cap(x.st[sb], c)
  {
    hide Rep, ShortAt, Level, Sorted, Along, At, BlockAt;
  }

  lemma MendedParts(x: Layout, root: nat, t: Tree, d: nat, c: Caps, us: seq<PathEntry>)
    requires Mended(x, root, t, d, c, us)
    ensures Laid(x, root, t, c) && Level(t, d) && Along(t, Idx(us)) && (us != [] ==> Linked(x.st, root, us))
            && OwnedPath(x.owned, us) && Hints(x.st, us)
  {
  }

  lemma TakeFirstSize(l: NodeRec, k: nat, r: NodeRec, y: RecPair)
    requires l.LeafRec? == r.LeafRec? && Shape(r) && (if r.LeafRec? then Size(r) >= 2 else Size(r) >= 1)
             && y == TakeFirst(l, k, r)
    ensures Size(y.r) == Size(r) - 1 && y.r.LeafRec? == r.LeafRec?
  {
  }

  lemma TakeLastSize(l: NodeRec, k: nat, r: NodeRec, y: RecPair)
    requires l.LeafRec? == r.LeafRec? && Shape(l) && Size(l) >= 1 && y == TakeLast(l, k, r)
    ensures Size(y.l) == Size(l) - 1 && y.l.LeafRec? == l.LeafRec?
  {
  }

  lemma JoinSize(l: NodeRec, k: nat, r: NodeRec, m: NodeRec, c: Caps)
    requires l.LeafRec? == r.LeafRec? && m == Join(l, k, r) && Size(l) + Size(r) + 1 <= 2 * (Cap(l, c) / 2)
    ensures Size(m) <= Cap(m, c)
  {
  }

  lemma KeptTwice(st: Store, own: set<nat>, st1: Store, own1: set<nat>, st2: Store, own2: set<nat>)
    requires Kept(st, own, st1, own1) && Kept(st1, own1, st2, own2)
    ensures Kept(st, own, st2, own2)
  {
  }

  lemma KeptSelf(st: Store, own: set<nat>)
    ensures Kept(st, own, st, own)
  {
  }

  lemma LaidRoot(x: Layout, root: nat, t: Tree, c: Caps)
    requires Laid(x, root, t, c)
    ensures root != 0 && CapsOk(c)
  {
  }

  // ---- the parent after a merge ----

  lemma {:induction false} ShrunkRecs(x: Layout, root: nat, t: Tree, d: nat, c: Caps, fs: seq<PathEntry>)
    requires Shrunk(x, root, t, d, c, fs)
    ensures fs != [] && Along(t, Idx(fs[..|fs| - 1])) && root != 0 && CapsOk(c)
    ensures var b, n := fs[|fs| - 1].block, At(t, Idx(fs[..|fs| - 1]));
            && b in x.st && b in x.owned && x.st[b].InnerRec? && n.Node? && x.st[b].ks == n.ks
            && |x.st[b].kids| == |n.cs| == |n.ks| + 1
            && (|fs| == 1 ==> b == root && n == t)
  {
    var k := |fs| - 1;
    LinkedAt(x.st, root, t, fs, k);
    RepAt(x.st, root, t, Idx(fs[..k]));
  }

  lemma {:induction false} ShrunkShort(x: Layout, root: nat, t: Tree, d: nat, c: Caps, fs: seq<PathEntry>)
    requires Shrunk(x, root, t, d, c, fs) && |fs| > 1 && |At(t, Idx(fs[..|fs| - 1])).ks| < c.inner / 2
    ensures Short(x, root, t, t, d, c, fs)
  {
    hide Laid, Linked, Level, Separated, Sorted, FilledAround, Hints, Along, At;
    ReplaceSame(t, Idx(fs[..|fs| - 1]));
  }

  lemma {:induction false} ShrunkGood(x: Layout, root: nat, t: Tree, d: nat, c: Caps, fs: seq<PathEntry>)
    requires Shrunk(x, root, t, d, c, fs) && CapsOk(c)
    requires var n := At(t, Idx(fs[..|fs| - 1])); |n.ks| >= 1 && (|fs| > 1 ==> |n.ks| >= c.inner / 2)
    ensures Laid(x, root, t, c) && Good(t, d, c)
  {
    var p := Idx(fs[..|fs| - 1]);
    hide Laid, Linked, Level, Separated, Sorted, FilledAround, Hints, Along, At;
    FilledReplace(t, p, At(t, p), c, true);
    ReplaceSame(t, p);
  }

  // The root lost its last key: its only child becomes the root.
  lemma {:induction false} RootGone(x: Layout, root: nat, t: Tree, d: nat, c: Caps, fs: seq<PathEntry>, kid: nat,
                                    x': Layout)
    requires Shrunk(x, root, t, d, c, fs) && |fs| == 1 && t.Node? && t.ks == [] && root in x.st && x.st[root].InnerRec?
             && x.st[root].kids == [kid]
    requires x' == Layout(x.st - {root}, x.owned - {root}, x.blocks - {root})
    ensures |t.cs| == 1 && d > 1 && Laid(x', kid, t.cs[0], c) && Good(t.cs[0], d - 1, c)
            && Contents(t.cs[0]) == Contents(t)
  {
    assert |t.cs| == 1;
    assert t.cs == [t.cs[0]];
    OneFlat(t.cs[0]);
    assert Level(t.cs[0], d - 1) && Separated(t.cs[0]);
    RootFilled(t, d, c, fs);
    KidsOne(x.st, kid, t.cs[0]);
    hide KidsRep, KidsFoot, Good, Level, Separated, Sorted, Filled;
    assert Rep(x.st, kid, t.cs[0]) && Foot(x.st, kid, t.cs[0]) == x.blocks - {root};
    FootStored(x.st, kid, t.cs[0]);
    TopFoot(x.st, kid, t.cs[0]);
    hide Rep, Foot;
    Frame(x.st, x'.st, kid, t.cs[0]);
  }

  lemma RootFilled(t: Tree, d: nat, c: Caps, fs: seq<PathEntry>)
    requires |fs| == 1 && ShrunkAt(t, Idx(fs[..|fs| - 1]), c) && t.Node? && |t.cs| == 1
    ensures Filled(t.cs[0], c, true)
  {
    assert Filled(t.cs[0], c, false);
  }

  // The state between merging two nodes and looking at their parent.
  lemma {:induction false} MergeDone(st: Store, x: Layout, root: nat, w: Tree, d: nat, c: Caps, es: seq<PathEntry>,
                                     us: seq<PathEntry>,
                                     vs: seq<PathEntry>, e: PathEntry)
    requires |es| > 1 && us == es[..|es| - 2] && e == es[|es| - 2] && SamePath(us, vs) && SameLinks(st, x.st)
    requires Linked(st, root, es[..|es| - 1]) && OwnedPath(x.owned, es[..|es| - 1]) && Hints(x.st, vs)
             && Laid(x, root, w, c)
    requires Level(w, d) && Separated(w) && Sorted(Contents(w)) && ShrunkAt(w, Idx(us), c)
    ensures Shrunk(x, root, w, d, c, vs + [e]) && |vs| == |us|
  {
    assert |vs| == |us|;
    hide Laid, Linked, OwnedPath, Hints, Level, Separated, Sorted, Contents, ShrunkAt, SamePath, SameLinks, Idx;
    var top := es[..|es| - 1];
    assert us == top[..|top| - 1];
    PathRejoin(st, x, root, top, us, vs);
  }
}
