// Borrowing from and merging with a sibling node, in blocks.
module TreeMerge {
  import opened TreeModel
  import opened TreeSteps
  import opened TreeStore
  import opened TreePath

  datatype RecPair = RecPair(l: NodeRec, k: nat, r: NodeRec)

  predicate Shape(r: NodeRec) { r.InnerRec? ==> |r.kids| == |r.ks| + 1 }

  // FromRight, FromLeft and MergeNodes on node records; k is the parent key between the two.
  function TakeFirst(l: NodeRec, k: nat, r: NodeRec): RecPair
    requires l.LeafRec? == r.LeafRec? && Shape(r)
    requires if r.LeafRec? then Size(r) >= 2 else Size(r) >= 1
  {
    if l.LeafRec?
    then RecPair(LeafRec(l.es + [r.es[0]]), r.es[1].key, LeafRec(r.es[1..]))
    else RecPair(InnerRec(l.ks + [k], l.kids + [r.kids[0]]), r.ks[0], InnerRec(r.ks[1..], r.kids[1..]))
  }

  function TakeLast(l: NodeRec, k: nat, r: NodeRec): RecPair
    requires l.LeafRec? == r.LeafRec? && Shape(l) && Size(l) >= 1
  {
    var n := Size(l) - 1;
    if l.LeafRec?
    then RecPair(LeafRec(l.es[..n]), l.es[n].key, LeafRec([l.es[n]] + r.es))
    else RecPair(InnerRec(l.ks[..n], l.kids[..n + 1]), l.ks[n], InnerRec([k] + r.ks, [l.kids[n + 1]] + r.kids))
  }

  function Join(l: NodeRec, k: nat, r: NodeRec): NodeRec
    requires l.LeafRec? == r.LeafRec?
  {
    if l.LeafRec? then LeafRec(l.es + r.es) else InnerRec(l.ks + [k] + r.ks, l.kids + r.kids)
  }

  // The children of two sibling nodes as one list.
  lemma {:induction false} PairPool(st: Store, lb: nat, l: Tree, rb: nat, r: Tree)
    requires Rep(st, lb, l) && Rep(st, rb, r) && l.Node? && r.Node? && Foot(st, lb, l) !! Foot(st, rb, r)
    ensures KidsRep(st, st[lb].kids + st[rb].kids, l.cs + r.cs)
    ensures KidsFoot(st, st[lb].kids + st[rb].kids, l.cs + r.cs) == Foot(st, lb, l) + Foot(st, rb, r) - {lb, rb}
  {
    KidsJoin(st, st[lb].kids, l.cs, st[rb].kids, r.cs);
  }

  // Two nodes over a list of children split in two.
  lemma {:induction false} PoolPair(st: Store, lb: nat, l: Tree, rb: nat, r: Tree, ka: seq<nat>, kb: seq<nat>)
    requires l.Node? && r.Node? && |ka| == |l.cs| && |kb| == |r.cs| && KidsRep(st, ka + kb, l.cs + r.cs)
    requires lb in st && rb in st && st[lb] == InnerRec(l.ks, ka) && st[rb] == InnerRec(r.ks, kb) && lb != rb
    requires lb !in KidsFoot(st, ka + kb, l.cs + r.cs) && rb !in KidsFoot(st, ka + kb, l.cs + r.cs)
    ensures Rep(st, lb, l) && Rep(st, rb, r) && Foot(st, lb, l) !! Foot(st, rb, r)
    ensures Foot(st, lb, l) + Foot(st, rb, r) == KidsFoot(st, ka + kb, l.cs + r.cs) + {lb, rb}
  {
    KidsJoin(st, ka, l.cs, kb, r.cs);
  }

  // Two sibling nodes rewritten as another pair over the same children or entries.
  ghost predicate Regrouped(st: Store, lb: nat, l: Tree, rb: nat, r: Tree, st': Store, lb': nat, l': Tree, rb': nat,
                            r': Tree)
  {
    && Rep(st, lb, l) && Rep(st, rb, r) && Foot(st, lb, l) !! Foot(st, rb, r)
    && (var rest := Foot(st, lb, l) + Foot(st, rb, r) - {lb, rb};
        Agree(st, st', rest) && lb' !in rest && rb' !in rest && lb' != rb' && lb' in st' && rb' in st')
  }

  lemma {:induction false} TakeFirstRep(st: Store, lb: nat, l: Tree, k: nat, rb: nat, r: Tree, st': Store, rb': nat)
    requires SameKind(l, r) && Arity(l) && Arity(r) && (if r.Leaf? then Count(r) >= 2 else Count(r) >= 1)
    requires var x := FromRight(l, k, r); Regrouped(st, lb, l, rb, r, st', lb, x.l, rb', x.r)
    requires st[lb].LeafRec? == st[rb].LeafRec? && Shape(st[rb])
             && (if st[rb].LeafRec? then Size(st[rb]) >= 2 else Size(st[rb]) >= 1)
    requires var y := TakeFirst(st[lb], k, st[rb]); st'[lb] == y.l && st'[rb'] == y.r
    ensures var x := FromRight(l, k, r); var y := TakeFirst(st[lb], k, st[rb]);
            && PairRep(st', lb, x.l, rb', x.r, Foot(st, lb, l) + Foot(st, rb, r) - {lb, rb} + {lb, rb'}) && y.k == x.k
  {
    var x := FromRight(l, k, r);
    if l.Node? {
      var ka, kb := st[lb].kids, st[rb].kids;
      PairPool(st, lb, l, rb, r);
      assert (ka + [kb[0]]) + kb[1..] == ka + kb && x.l.cs + x.r.cs == l.cs + r.cs;
      KidsFrame(st, st', ka + kb, l.cs + r.cs);
      PoolPair(st', lb, x.l, rb', x.r, ka + [kb[0]], kb[1..]);
    }
  }

  lemma {:induction false} TakeLastRep(st: Store, lb: nat, l: Tree, k: nat, rb: nat, r: Tree, st': Store, lb': nat)
    requires SameKind(l, r) && Arity(l) && Arity(r) && Count(l) >= 1
    requires var x := FromLeft(l, k, r); Regrouped(st, lb, l, rb, r, st', lb', x.l, rb, x.r)
    requires st[lb].LeafRec? == st[rb].LeafRec? && Shape(st[lb]) && Size(st[lb]) >= 1
    requires var y := TakeLast(st[lb], k, st[rb]); st'[lb'] == y.l && st'[rb] == y.r
    ensures var x := FromLeft(l, k, r); var y := TakeLast(st[lb], k, st[rb]);
            && PairRep(st', lb', x.l, rb, x.r, Foot(st, lb, l) + Foot(st, rb, r) - {lb, rb} + {lb', rb}) && y.k == x.k
  {
    var x := FromLeft(l, k, r);
    if l.Node? {
      var ka, kb, n := st[lb].kids, st[rb].kids, |l.ks| - 1;
      PairPool(st, lb, l, rb, r);
      assert ka[..n + 1] + ([ka[n + 1]] + kb) == ka + kb && x.l.cs + x.r.cs == l.cs + r.cs;
      KidsFrame(st, st', ka + kb, l.cs + r.cs);
      PoolPair(st', lb', x.l, rb, x.r, ka[..n + 1], [ka[n + 1]] + kb);
    }
  }

  lemma {:induction false} JoinRep(st: Store, lb: nat, l: Tree, k: nat, rb: nat, r: Tree, st': Store, nb: nat)
    requires SameKind(l, r) && Rep(st, lb, l) && Rep(st, rb, r) && Foot(st, lb, l) !! Foot(st, rb, r)
    requires var rest := Foot(st, lb, l) + Foot(st, rb, r) - {lb, rb}; Agree(st, st', rest) && nb !in rest && nb in st'
    requires st[lb].LeafRec? == st[rb].LeafRec? && st'[nb] == Join(st[lb], k, st[rb])
    ensures Rep(st', nb, MergeNodes(l, k, r))
    ensures Foot(st', nb, MergeNodes(l, k, r)) == Foot(st, lb, l) + Foot(st, rb, r) - {lb, rb} + {nb}
  {
    if l.Node? {
      PairPool(st, lb, l, rb, r);
      KidsFrame(st, st', st[lb].kids + st[rb].kids, l.cs + r.cs);
    }
  }

  // ---- inside the parent ----

  // Children q and q+1 of the node at pb, singled out.
  lemma {:induction false} Siblings(st: Store, pb: nat, t: Tree, q: nat)
    requires Rep(st, pb, t) && t.Node? && q + 1 < |t.cs| == |st[pb].kids|
    ensures var ka, kb := st[pb].kids[q], st[pb].kids[q + 1];
            && Rep(st, ka, t.cs[q]) && Rep(st, kb, t.cs[q + 1]) && Foot(st, ka, t.cs[q]) !! Foot(st, kb, t.cs[q + 1])
            && KidsFoot(st, st[pb].kids[q..q + 2], t.cs[q..q + 2]) == Foot(st, ka, t.cs[q]) + Foot(st, kb, t.cs[q + 1])
            && Foot(st, ka, t.cs[q]) + Foot(st, kb, t.cs[q + 1]) <= KidsFoot(st, st[pb].kids, t.cs)
  {
    var kids, cs := st[pb].kids, t.cs;
    KidsMiddle(st, kids, cs, q, q + 2);
    KidsTwo(st, kids[q], cs[q], kids[q + 1], cs[q + 1]);
    assert kids[q..q + 2] == [kids[q], kids[q + 1]] && cs[q..q + 2] == [cs[q], cs[q + 1]];
  }

  // The pair q, q+1 of a list of children replaced by others.
  lemma {:induction false} KidsPair(st: Store, st': Store, kids: seq<nat>, cs: seq<Tree>, q: nat, kx: seq<nat>,
                                    cx: seq<Tree>, two: set<nat>)
    requires KidsRep(st, kids, cs) && q + 1 < |cs| == |kids| && KidsRep(st', kx, cx)
    requires two == Foot(st, kids[q], cs[q]) + Foot(st, kids[q + 1], cs[q + 1])
    requires Agree(st, st', KidsFoot(st, kids, cs) - two) && KidsFoot(st', kx, cx) !! (KidsFoot(st, kids, cs) - two)
    ensures KidsRep(st', kids[..q] + kx + kids[q + 2..], cs[..q] + cx + cs[q + 2..])
    ensures KidsFoot(st', kids[..q] + kx + kids[q + 2..], cs[..q] + cx + cs[q + 2..]) == KidsFoot(st, kids,
            cs) - two + KidsFoot(st', kx, cx)
  {
    KidsTwo(st, kids[q], cs[q], kids[q + 1], cs[q + 1]);
    assert kids[q..q + 2] == [kids[q], kids[q + 1]] && cs[q..q + 2] == [cs[q], cs[q + 1]];
    KidsReplace(st, st', kids, cs, q, q + 2, kx, cx);
  }

  // The pair q, q+1 replaced by another pair with a new key between them.
  lemma {:induction false} SetPairRep(st: Store, st': Store, pb: nat, t: Tree, q: nat, x: Pair, lb: nat, rb: nat,
                                      two: set<nat>, two': set<nat>)
    requires Rep(st, pb, t) && t.Node? && Arity(t) && q + 1 < |t.cs| == |st[pb].kids| && |st[pb].ks| == |t.ks|
    requires two == Foot(st, st[pb].kids[q], t.cs[q]) + Foot(st, st[pb].kids[q + 1], t.cs[q + 1])
    requires PairRep(st', lb, x.l, rb, x.r, two')
    requires Agree(st, st', Foot(st, pb, t) - two - {pb}) && two' !! (Foot(st, pb, t) - two)
    requires pb in st' && st'[pb] == InnerRec(st[pb].ks[q := x.k], st[pb].kids[..q] + [lb, rb] + st[pb].kids[q + 2..])
    ensures Rep(st', pb, SetPair(t, q, x)) && Foot(st', pb, SetPair(t, q, x)) == Foot(st, pb, t) - two + two'
  {
    hide KidsRep, KidsFoot;
    Siblings(st, pb, t, q);
    KidsTwo(st', lb, x.l, rb, x.r);
    KidsPair(st, st', st[pb].kids, t.cs, q, [lb, rb], [x.l, x.r], two);
  }

  // The pair q, q+1 replaced by one node; key q goes.
  lemma {:induction false} JoinPairRep(st: Store, st': Store, pb: nat, t: Tree, q: nat, m: Tree, mb: nat, two: set<nat>)
    requires Rep(st, pb, t) && t.Node? && Arity(t) && q + 1 < |t.cs| == |st[pb].kids| && |st[pb].ks| == |t.ks|
    requires two == Foot(st, st[pb].kids[q], t.cs[q]) + Foot(st, st[pb].kids[q + 1], t.cs[q + 1])
    requires Rep(st', mb, m) && Agree(st, st', Foot(st, pb, t) - two - {pb})
             && Foot(st', mb, m) !! (Foot(st, pb, t) - two)
    requires pb in st' && st'[pb] == InnerRec(st[pb].ks[..q] + st[pb].ks[q + 1..],
             st[pb].kids[..q] + [mb] + st[pb].kids[q + 2..])
    ensures Rep(st', pb, JoinPair(t, q, m))
            && Foot(st', pb, JoinPair(t, q, m)) == Foot(st, pb, t) - two + Foot(st', mb, m)
  {
    hide KidsRep, KidsFoot;
    Siblings(st, pb, t, q);
    KidsOne(st', mb, m);
    KidsPair(st, st', st[pb].kids, t.cs, q, [mb], [m], two);
  }
}
