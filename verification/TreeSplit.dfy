// The split of an overfull node, in blocks: the left half stays in the node's block, the
// right half goes to a fresh one, and the parent gets a key and a child.
module TreeSplit {
  import opened TreeModel
  import opened TreeSteps
  import opened TreeStore
  import opened TreePath
  import opened TreeLinks

  // Both halves of a node record, and the key that goes between them.
  function HalfLeft(r: NodeRec, c: Caps): NodeRec
    requires Size(r) == Cap(r, c) + 1 && (r.InnerRec? ==> |r.kids| == |r.ks| + 1)
  {
    var s := (Cap(r, c) + 1) / 2;
    if r.LeafRec? then LeafRec(r.es[..s]) else InnerRec(r.ks[..s], r.kids[..s + 1])
  }

  function HalfRight(r: NodeRec, c: Caps): NodeRec
    requires Size(r) == Cap(r, c) + 1 && (r.InnerRec? ==> |r.kids| == |r.ks| + 1) && CapsOk(c)
  {
    var s := (Cap(r, c) + 1) / 2;
    if r.LeafRec? then LeafRec(r.es[s..]) else InnerRec(r.ks[s + 1..], r.kids[s + 1..])
  }

  function HalfKey(r: NodeRec, c: Caps): nat
    requires Size(r) == Cap(r, c) + 1 && CapsOk(c)
  {
    var s := (Cap(r, c) + 1) / 2;
    if r.LeafRec? then r.es[s].key else r.ks[s]
  }

  // Key k and its right child inserted at index i of an internal node.
  function AddChild(r: NodeRec, i: nat, k: nat, child: nat): NodeRec
    requires r.InnerRec? && i < |r.kids| == |r.ks| + 1
  {
    InnerRec(r.ks[..i] + [k] + r.ks[i..], r.kids[..i] + [r.kids[i], child] + r.kids[i + 1..])
  }

  ghost predicate OverRec(st: Store, b: nat, t: Tree, c: Caps)
  {
    CapsOk(c) && Rep(st, b, t) && Overfull(t, c) && Size(st[b]) == Cap(st[b], c) + 1
    && (st[b].InnerRec? ==> |st[b].kids| == |st[b].ks| + 1)
  }

  lemma {:induction false} OverfullRec(st: Store, b: nat, t: Tree, c: Caps)
    requires CapsOk(c) && Rep(st, b, t) && Overfull(t, c)
    ensures OverRec(st, b, t, c)
  {
  }

  lemma {:induction false} HalvesKids(st: Store, st': Store, kids: seq<nat>, cs: seq<Tree>, s: nat)
    requires KidsRep(st, kids, cs) && |kids| == |cs| && s <= |cs| && Agree(st, st', KidsFoot(st, kids, cs))
    ensures KidsRep(st', kids[..s], cs[..s]) && KidsRep(st', kids[s..], cs[s..])
    ensures KidsFoot(st', kids[..s], cs[..s]) !! KidsFoot(st', kids[s..], cs[s..])
    ensures KidsFoot(st', kids[..s], cs[..s]) + KidsFoot(st', kids[s..], cs[s..]) == KidsFoot(st, kids, cs)
  {
    hide KidsRep, KidsFoot;
    assert kids == kids[..s] + kids[s..] && cs == cs[..s] + cs[s..];
    KidsFrame(st, st', kids, cs);
    KidsJoin(st', kids[..s], cs[..s], kids[s..], cs[s..]);
  }

  // The halves of node t, stored in blocks lb and rb.
  lemma {:induction false} HalvesRep(st: Store, st': Store, b: nat, t: Tree, c: Caps, lb: nat, rb: nat, x: Pair)
    requires OverRec(st, b, t, c) && x == SplitNode(t, c)
    requires Agree(st, st', Foot(st, b, t) - {b}) && lb != rb && {lb, rb} !! (Foot(st, b, t) - {b})
    requires lb in st' && rb in st' && st'[lb] == HalfLeft(st[b], c) && st'[rb] == HalfRight(st[b], c)
    ensures PairRep(st', lb, x.l, rb, x.r, Foot(st, b, t) - {b} + {lb, rb})
  {
    if t.Node? {
      var kids, s := st[b].kids, (c.inner + 1) / 2;
      HalvesInner(st, st', b, t, lb, rb, x, kids, s, Foot(st, b, t) - {b});
    }
  }

  lemma {:induction false} HalvesInner(st: Store, st': Store, b: nat, t: Tree, lb: nat, rb: nat, x: Pair,
                                       kids: seq<nat>, s: nat, F: set<nat>)
    requires t.Node? && Rep(st, b, t) && kids == st[b].kids && |kids| == |t.cs| == |t.ks| + 1 && s < |t.ks|
             && F == Foot(st, b, t) - {b}
    requires x == Pair(Node(t.ks[..s], t.cs[..s + 1]), t.ks[s], Node(t.ks[s + 1..], t.cs[s + 1..]))
    requires Agree(st, st', F) && lb != rb && lb !in F && rb !in F && lb in st' && rb in st'
    requires st'[lb] == InnerRec(t.ks[..s], kids[..s + 1]) && st'[rb] == InnerRec(t.ks[s + 1..], kids[s + 1..])
    ensures PairRep(st', lb, x.l, rb, x.r, F + {lb, rb}) == true
  {
    hide PairRep, KidsRep, KidsFoot;
    assert F == KidsFoot(st, kids, t.cs);
    HalvesKids(st, st', kids, t.cs, s + 1);
    HalvesNode(st', lb, rb, x, kids[..s + 1], kids[s + 1..], F);
  }

  lemma {:induction false} HalvesNode(st: Store, lb: nat, rb: nat, x: Pair, kl: seq<nat>, kr: seq<nat>, F: set<nat>)
    requires x.l.Node? && x.r.Node? && lb in st && rb in st && st[lb] == InnerRec(x.l.ks, kl)
             && st[rb] == InnerRec(x.r.ks, kr)
    requires KidsRep(st, kl, x.l.cs) && KidsRep(st, kr, x.r.cs) && KidsFoot(st, kl, x.l.cs) !! KidsFoot(st, kr, x.r.cs)
    requires F == KidsFoot(st, kl, x.l.cs) + KidsFoot(st, kr, x.r.cs) && lb != rb && lb !in F && rb !in F
    ensures PairRep(st, lb, x.l, rb, x.r, F + {lb, rb})
  {
    hide Rep, Foot, KidsRep, KidsFoot;
    NodeRep(st, lb, x.l.ks, kl, x.l.cs);
    NodeRep(st, rb, x.r.ks, kr, x.r.cs);
  }

  // Child i of a list split into its own block b and the fresh block rb.
  lemma {:induction false} SplitKidsRep(st: Store, st': Store, kids: seq<nat>, cs: seq<Tree>, i: nat, c: Caps, rb: nat)
    requires CapsOk(c) && KidsRep(st, kids, cs) && i < |cs| == |kids| && OverRec(st, kids[i], cs[i], c)
    requires Agree(st, st', KidsFoot(st, kids, cs) - {kids[i]}) && rb !in KidsFoot(st, kids, cs)
    requires var b := kids[i]; b in st' && rb in st' && st'[b] == HalfLeft(st[b], c) && st'[rb] == HalfRight(st[b], c)
    ensures var x := SplitNode(cs[i], c);
            var ks', cs' := kids[..i] + [kids[i], rb] + kids[i + 1..], cs[..i] + [x.l, x.r] + cs[i + 1..];
            && KidsRep(st', ks', cs') && KidsFoot(st', ks', cs') == KidsFoot(st, kids, cs) + {rb}
  {
    hide KidsRep, SplitNode, HalfLeft, HalfRight;
    var b, x := kids[i], SplitNode(cs[i], c);
    KidsOne(st, b, cs[i]);
    assert kids[i..i + 1] == [b] && cs[i..i + 1] == [cs[i]];
    KidsMiddle(st, kids, cs, i, i + 1);
    assert Foot(st, b, cs[i]) <= KidsFoot(st, kids, cs);
    HalvesRep(st, st', b, cs[i], c, b, rb, x);
    KidsTwo(st', b, x.l, rb, x.r);
    KidsReplace(st, st', kids, cs, i, i + 1, [b, rb], [x.l, x.r]);
  }

  lemma {:induction false} HalvesKey(st: Store, b: nat, t: Tree, c: Caps)
    requires OverRec(st, b, t, c)
    ensures SplitNode(t, c).k == HalfKey(st[b], c)
  {
  }

  // Child i of the node at pb split; the node gets the key and the new child.
  lemma {:induction false} SplitChildRep(st: Store, st': Store, pb: nat, t: Tree, i: nat, c: Caps, rb: nat)
    requires CapsOk(c) && Rep(st, pb, t) && t.Node? && Arity(t) && i < |t.cs| == |st[pb].kids| && Overfull(t.cs[i], c)
    requires var b := st[pb].kids[i];
             && OverRec(st, b, t.cs[i], c)
             && Agree(st, st', Foot(st, pb, t) - {b, pb}) && rb !in Foot(st, pb, t)
             && b in st' && rb in st' && pb in st' && |st[pb].kids| == |st[pb].ks| + 1
             && st'[b] == HalfLeft(st[b], c) && st'[rb] == HalfRight(st[b], c)
             && st'[pb] == AddChild(st[pb], i, HalfKey(st[b], c), rb)
    ensures Rep(st', pb, SplitChild(t, i, c)) && Foot(st', pb, SplitChild(t, i, c)) == Foot(st, pb, t) + {rb}
  {
    hide KidsRep, KidsFoot, SplitNode, OverRec, Overfull;
    var kids, cs, x := st[pb].kids, t.cs, SplitNode(t.cs[i], c);
    SplitKidsRep(st, st', kids, cs, i, c, rb);
    HalvesKey(st, kids[i], cs[i], c);
  }

  // The root split into two fresh blocks below it.
  lemma {:induction false} SplitRootRep(st: Store, st': Store, b: nat, t: Tree, c: Caps, lb: nat, rb: nat)
    requires OverRec(st, b, t, c)
    requires Agree(st, st', Foot(st, b, t) - {b}) && lb != rb && {lb, rb} !! Foot(st, b, t)
    requires lb in st' && rb in st' && b in st' && st'[lb] == HalfLeft(st[b], c) && st'[rb] == HalfRight(st[b], c)
    requires st'[b] == InnerRec([HalfKey(st[b], c)], [lb, rb])
    ensures var x := SplitNode(t, c); var s := Node([x.k], [x.l, x.r]);
            Rep(st', b, s) && Foot(st', b, s) == Foot(st, b, t) + {lb, rb}
  {
    var x := SplitNode(t, c);
    HalvesRep(st, st', b, t, c, lb, rb, x);
    KidsTwo(st', lb, x.l, rb, x.r);
  }

  // ---- a full node with an entry pending ----

  ghost predicate Fits(st: Store, c: Caps)
  {
    forall b :: b in st ==> Size(st[b]) <= Cap(st[b], c)
  }

  // The blocks hold t, each block once, and no other block is charged to the tree.
  ghost predicate Laid(x: Layout, root: nat, t: Tree, c: Caps)
  {
    && CapsOk(c) && 0 !in x.st && x.owned <= x.st.Keys * x.blocks && Fits(x.st, c)
    && root != 0 && Rep(x.st, root, t) && Foot(x.st, root, t) == x.blocks
  }

  // The blocks hold t once the pending entry is appended to the full node at the end of es,
  // and that node is the only one out of bounds.
  ghost predicate Pending(x: Layout, root: nat, t: Tree, d: nat, c: Caps, es: seq<PathEntry>, ap: Inserting)
  {
    && CapsOk(c) && 0 !in x.st && x.owned <= x.st.Keys * x.blocks && Fits(x.st, c) && ap.block in x.st && ap.key > 0
    && (x.st[ap.block].LeafRec? ==> ap.data > 0)
    && Rep(View(x.st, ap), root, t) && Foot(View(x.st, ap), root, t) == x.blocks
    && Linked(x.st, root, es) && ap.block == es[|es| - 1].block
    && (forall k :: 0 <= k < |es| ==> es[k].block in x.owned)
    && Level(t, d) && Separated(t) && Sorted(Contents(t))
    && OverAt(t, Idx(es[..|es| - 1]), c)
  }

  // The node at p has one entry too many; all others are properly filled.
  ghost predicate OverAt(t: Tree, p: seq<nat>, c: Caps)
  {
    Along(t, p) && Overfull(At(t, p), c) && KidsFilled(At(t, p), c) && FilledAround(t, p, c, true)
  }

  lemma {:induction false} LinkedView(x: Layout, root: nat, t: Tree, es: seq<PathEntry>, ap: Inserting)
    requires Linked(x.st, root, es) && ap.block == es[|es| - 1].block && ap.block in x.st
    requires Rep(View(x.st, ap), root, t) && Along(t, Idx(es[..|es| - 1]))
    ensures Linked(View(x.st, ap), root, es)
  {
    forall k | 0 <= k < |es| - 1
      ensures Link(View(x.st, ap), es, k)
    {
      assert Link(x.st, es, k);
    }
  }

  // The nodes involved in a split below the root.
  lemma {:induction false} SplitPlaces(x: Layout, root: nat, t: Tree, d: nat, c: Caps, es: seq<PathEntry>,
                                       ap: Inserting)
    requires Pending(x, root, t, d, c, es, ap)
    ensures OverRec(View(x.st, ap), ap.block, At(t, Idx(es[..|es| - 1])), c)
    ensures |es| > 1 ==>
      var v, n := View(x.st, ap), |es| - 1;
      var q, i, pb := Idx(es[..n - 1]), es[n - 1].index, es[n - 1].block;
      && Along(t, q) && At(t, q).Node? && i < |At(t, q).cs| && At(t, q).cs[i] == At(t, Idx(es[..n]))
      && Idx(es[..n]) == q + [i]
      && pb in x.st && x.st[pb] == v[pb] && v[pb].InnerRec? && |v[pb].kids| == |At(t, q).cs| == |v[pb].ks| + 1
      && v[pb].kids[i] == ap.block && pb != ap.block && Rep(v, pb, At(t, q)) && BlockAt(v, root, q) == pb
      && Foot(v, pb, At(t, q)) <= x.blocks && ap.block in Foot(v, pb, At(t, q))
  {
    var v, n := View(x.st, ap), |es| - 1;
    LinkedView(x, root, t, es, ap);
    LinkedAt(v, root, t, es, n);
    RepAt(v, root, t, Idx(es[..n]));
    OverfullRec(v, ap.block, At(t, Idx(es[..n])), c);
    if n > 0 {
      PathPositions(t, es, n);
      assert es[..n][..n - 1] == es[..n - 1];
      LinkedAt(v, root, t, es, n - 1);
      RepAt(v, root, t, Idx(es[..n - 1]));
      ReplaceLevel(t, Idx(es[..n - 1]), At(t, Idx(es[..n - 1])), d);
      LinkedApart(v, root, t, es, n - 1, n);
      assert Link(v, es, n - 1);
    }
  }

  // The node at the end of es is full and has a parent to receive its right half.
  predicate Divisible(st: Store, es: seq<PathEntry>, ap: Inserting, c: Caps)
  {
    && |es| > 1 && ap.block in st && es[|es| - 2].block in st && CapsOk(c)
    && Size(st[ap.block]) == Cap(st[ap.block], c)
    && (st[ap.block].InnerRec? ==> |st[ap.block].kids| == |st[ap.block].ks| + 1)
    && var r := st[es[|es| - 2].block]; r.InnerRec? && es[|es| - 2].index < |r.kids| == |r.ks| + 1
  }

  // Store after the node at the end of es was split and its parent extended.
  function SplitStore(st: Store, es: seq<PathEntry>, ap: Inserting, c: Caps, rb: nat): Store
    requires Divisible(st, es, ap, c)
  {
    var full, pb := Append(st[ap.block], ap), es[|es| - 2].block;
    st[ap.block := HalfLeft(full, c)][rb := HalfRight(full, c)]
      [pb := AddChild(st[pb], es[|es| - 2].index, HalfKey(full, c), rb)]
  }

  // In blocks, the split replaces the parent by one with the child split.
  lemma {:induction false} SplitStepRep(x: Layout, root: nat, t: Tree, d: nat, c: Caps, es: seq<PathEntry>,
                                        ap: Inserting, rb: nat, st': Store)
    requires Pending(x, root, t, d, c, es, ap) && |es| > 1 && rb !in x.st
    requires Divisible(x.st, es, ap, c) && st' == SplitStore(x.st, es, ap, c, rb)
    requires var q, i := Idx(es[..|es| - 2]), es[|es| - 2].index;
             Along(t, q) && At(t, q).Node? && i < |At(t, q).cs| && Arity(At(t, q)) && Overfull(At(t, q).cs[i], c)
    ensures var q, i := Idx(es[..|es| - 2]), es[|es| - 2].index; var t' := Replace(t, q, SplitChild(At(t, q), i, c));
            Rep(st', root, t') && Foot(st', root, t') == x.blocks + {rb}
  {
    SplitPlaces(x, root, t, d, c, es, ap);
    var v, n := View(x.st, ap), |es| - 1;
    var q, i, pb := Idx(es[..n - 1]), es[n - 1].index, es[n - 1].block;
    FootStored(v, root, t);
    SplitChildRep(v, st', pb, At(t, q), i, c, rb);
    WriteRep(v, st', root, t, q, SplitChild(At(t, q), i, c));
  }

  // As a value, SplitTree keeps the entries and the order ...
  lemma {:induction false} SplitStepOrder(t: Tree, d: nat, c: Caps, q: seq<nat>, i: nat)
    requires CapsOk(c) && Level(t, d) && Separated(t) && OverAt(t, q + [i], c)
    requires Along(t, q) && At(t, q).Node? && i < |At(t, q).cs| && Arity(At(t, q)) && Overfull(At(t, q).cs[i], c)
    ensures var s := Replace(t, q, SplitChild(At(t, q), i, c));
            && Level(s, d) && Separated(s) && Contents(s) == Contents(t)
            && KidsFilled(SplitChild(At(t, q), i, c), c)
  {
    var n := At(t, q);
    AtSnoc(t, q, i);
    FilledSnoc(t, q, i, c, true);
    ReplaceLevel(t, q, n, d);
    SeparatedAt(t, q);
    SplitChildOk(n, i, c, d - |q|);
    var s := SplitChild(n, i, c);
    ReplaceLevel(t, q, s, d);
    SeparatedReplace(t, q, s);
    ReplaceContents(t, q, s);
    ContentsAt(t, q);
  }

  // ... and moves the excess to the parent.
  lemma {:induction false} SplitStepFill(t: Tree, d: nat, c: Caps, q: seq<nat>, i: nat)
    requires CapsOk(c) && Level(t, d) && Separated(t) && OverAt(t, q + [i], c)
    requires Along(t, q) && At(t, q).Node? && i < |At(t, q).cs| && Arity(At(t, q)) && Overfull(At(t, q).cs[i], c)
    ensures var s := Replace(t, q, SplitChild(At(t, q), i, c));
            if |At(t, q).ks| < c.inner then Filled(s, c, true) else |At(t, q).ks| == c.inner && OverAt(s, q, c)
  {
    var n := At(t, q);
    SplitStepOrder(t, d, c, q, i);
    FilledSnoc(t, q, i, c, true);
    ReplaceAt(t, q, SplitChild(n, i, c));
    FilledReplace(t, q, SplitChild(n, i, c), c, true);
  }

  // State after one split whose parent had room: the tree is complete.
  // Otherwise the parent's last key and child are pending in turn.
  lemma {:induction false} SplitStep(x: Layout, root: nat, t: Tree, d: nat, c: Caps, es: seq<PathEntry>, ap: Inserting,
                                     rb: nat,
                                     st': Store, t': Tree)
    requires Pending(x, root, t, d, c, es, ap) && |es| > 1 && rb !in x.st && rb != 0
    requires Divisible(x.st, es, ap, c) && st' == SplitStore(x.st, es, ap, c, rb)
    requires var q, i := Idx(es[..|es| - 2]), es[|es| - 2].index;
             && Along(t, q) && At(t, q).Node? && i < |At(t, q).cs| && Arity(At(t, q)) && Overfull(At(t, q).cs[i], c)
             && t' == Replace(t, q, SplitChild(At(t, q), i, c))
    ensures Rep(st', root, t') && Foot(st', root, t') == x.blocks + {rb}
    ensures Level(t', d) && Separated(t') && Contents(t') == Contents(t) && Sorted(Contents(t'))
    ensures var q, pb := Idx(es[..|es| - 2]), es[|es| - 2].block;
            if |x.st[pb].ks| < c.inner then Filled(t', c, true) else |x.st[pb].ks| == c.inner && OverAt(t', q, c)
    ensures Linked(st', root, es[..|es| - 1])
    ensures forall b :: b in st' && b != es[|es| - 2].block ==> Size(st'[b]) <= Cap(st'[b], c)
  {
    var q, i := Idx(es[..|es| - 2]), es[|es| - 2].index;
    SplitPlaces(x, root, t, d, c, es, ap);
    SplitStepRep(x, root, t, d, c, es, ap, rb, st');
    SplitStepOrder(t, d, c, q, i);
    SplitStepFill(t, d, c, q, i);
    SplitLinks(x, root, t, es, ap, c, rb, st');
    SplitSizes(x.st, es, ap, c, rb);
  }

  lemma {:induction false} SplitSizes(st: Store, es: seq<PathEntry>, ap: Inserting, c: Caps, rb: nat)
    requires Divisible(st, es, ap, c) && Fits(st, c)
    ensures var st' := SplitStore(st, es, ap, c, rb);
            forall b :: b in st' && b != es[|es| - 2].block ==> Size(st'[b]) <= Cap(st'[b], c)
  {
  }

  lemma {:induction false} SplitLinks(x: Layout, root: nat, t: Tree, es: seq<PathEntry>, ap: Inserting, c: Caps,
                                      rb: nat, st': Store)
    requires Linked(x.st, root, es) && ap.block == es[|es| - 1].block && ap.block in x.st && |es| > 1 && rb !in x.st
    requires Rep(View(x.st, ap), root, t) && Along(t, Idx(es[..|es| - 1])) && CapsOk(c) && Fits(x.st, c)
    requires Divisible(x.st, es, ap, c) && st' == SplitStore(x.st, es, ap, c, rb)
    ensures Linked(st', root, es[..|es| - 1])
  {
    var n, v := |es| - 1, View(x.st, ap);
    LinkedView(x, root, t, es, ap);
    PathPositions(t, es, n - 1);
    LinkedDistinct(v, root, t, es, n);
    LinkedDistinct(v, root, t, es, n - 1);
    forall k | 0 <= k < n - 1
      ensures es[k].block in st' && es[k].block in x.st && st'[es[k].block] == x.st[es[k].block]
    {
      assert Link(x.st, es, k);
    }
    LinkedKeep(x.st, st', root, es, n);
  }
}
