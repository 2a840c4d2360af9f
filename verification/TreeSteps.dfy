// Node-level steps of the B+ tree as functions on values, and what each keeps:
// the split of an overfull node, borrowing from a sibling, merging with it.
module TreeSteps {
  import opened TreeModel

  datatype Pair = Pair(l: Tree, k: nat, r: Tree)

  function MinCount(t: Tree, c: Caps): nat { if t.Leaf? then c.leaf / 2 else c.inner / 2 }

  function Count(t: Tree): nat { if t.Leaf? then |t.es| else |t.ks| }

  function MaxCount(t: Tree, c: Caps): nat { if t.Leaf? then c.leaf else c.inner }

  predicate CapsOk(c: Caps) { c.leaf >= 2 && c.inner >= 2 }

  predicate Arity(t: Tree) { t.Node? ==> |t.cs| == |t.ks| + 1 }

  // ---- split (block_tree_node_split) ----

  predicate Overfull(t: Tree, c: Caps) { Arity(t) && Count(t) == MaxCount(t, c) + 1 }

  function SplitNode(t: Tree, c: Caps): Pair
    requires CapsOk(c) && Overfull(t, c)
  {
    var s := (MaxCount(t, c) + 1) / 2;
    match t
    case Leaf(es) => Pair(Leaf(es[..s]), es[s].key, Leaf(es[s..]))
    case Node(ks, cs) => Pair(Node(ks[..s], cs[..s + 1]), ks[s], Node(ks[s + 1..], cs[s + 1..]))
  }

  lemma {:induction false} SplitNodeOk(t: Tree, c: Caps, d: nat)
    requires CapsOk(c) && Overfull(t, c) && Level(t, d) && Separated(t) && KidsFilled(t, c)
    ensures var x := SplitNode(t, c);
            && Level(x.l, d) && Level(x.r, d) && Separated(x.l) && Separated(x.r)
            && Filled(x.l, c, false) && Filled(x.r, c, false)
            && Contents(t) == Contents(x.l) + Contents(x.r)
            && Contents(x.l) != [] && Contents(x.r) != [] && Contents(t) != []
            && FirstKey(x.l) == FirstKey(t) && FirstKey(x.r) == x.k
  {
    if t.Node? {
      SplitInner(t, c, d, SplitNode(t, c));
    }
  }

  lemma {:induction false} SplitInner(t: Tree, c: Caps, d: nat, x: Pair)
    requires CapsOk(c) && Overfull(t, c) && Level(t, d) && Separated(t) && KidsFilled(t, c) && t.Node?
             && x == SplitNode(t, c)
    ensures Level(x.l, d) && Level(x.r, d) && Separated(x.l) && Separated(x.r)
    ensures Filled(x.l, c, false) && Filled(x.r, c, false)
    ensures Contents(t) == Contents(x.l) + Contents(x.r) && Contents(x.l) != [] && Contents(x.r) != []
    ensures FirstKey(x.l) == FirstKey(t) && FirstKey(x.r) == x.k
  {
    var s, cs := (c.inner + 1) / 2, t.cs;
    FlatAppend(cs[..s + 1], cs[s + 1..]);
    assert cs == cs[..s + 1] + cs[s + 1..];
    assert x.l.cs[0] == cs[0] && x.r.cs[0] == cs[s + 1];
    FlatHead(x.l.cs);
    FlatHead(x.r.cs);
    SplitLeft(t, c, d, s, x.l);
    SplitRight(t, c, d, s + 1, x.r);
  }

  lemma {:induction false} SplitLeft(t: Tree, c: Caps, d: nat, s: nat, l: Tree)
    requires t.Node? && Arity(t) && Level(t, d) && Separated(t) && KidsFilled(t, c) && 1 <= s <= |t.ks|
    requires l == Node(t.ks[..s], t.cs[..s + 1])
    ensures Level(l, d) && Separated(l) && KidsFilled(l, c)
  {
  }

  lemma {:induction false} SplitRight(t: Tree, c: Caps, d: nat, s: nat, r: Tree)
    requires t.Node? && Arity(t) && Level(t, d) && Separated(t) && KidsFilled(t, c) && s <= |t.ks|
    requires r == Node(t.ks[s..], t.cs[s..])
    ensures Level(r, d) && Separated(r) && KidsFilled(r, c)
  {
  }

  function SplitChild(t: Tree, p: nat, c: Caps): Tree
    requires CapsOk(c) && t.Node? && Arity(t) && p < |t.cs| && Overfull(t.cs[p], c)
  {
    var x := SplitNode(t.cs[p], c);
    Node(t.ks[..p] + [x.k] + t.ks[p..], t.cs[..p] + [x.l, x.r] + t.cs[p + 1..])
  }

  lemma {:induction false} SplitChildContents(t: Tree, p: nat, c: Caps)
    requires CapsOk(c) && t.Node? && Arity(t) && p < |t.cs| && Overfull(t.cs[p], c)
    requires var x := SplitNode(t.cs[p], c); Contents(t.cs[p]) == Contents(x.l) + Contents(x.r)
    ensures Contents(SplitChild(t, p, c)) == Contents(t)
  {
    var x := SplitNode(t.cs[p], c);
    var s := SplitChild(t, p, c);
    FlatPair(s.cs, p);
    assert s.cs[..p] == t.cs[..p] && s.cs[p + 2..] == t.cs[p + 1..];
    FlatSplit(t.cs, p);
  }

  lemma {:induction false} SplitChildOk(t: Tree, p: nat, c: Caps, d: nat)
    requires CapsOk(c) && t.Node? && Arity(t) && p < |t.cs| && Overfull(t.cs[p], c)
    requires Level(t, d) && Separated(t) && KidsFilled(t.cs[p], c)
    requires forall i :: 0 <= i < |t.cs| && i != p ==> Filled(t.cs[i], c, false)
    ensures var s := SplitChild(t, p, c);
            && Level(s, d) && Separated(s) && KidsFilled(s, c) && Arity(s)
            && Contents(s) == Contents(t) && Contents(t) != []
  {
    var s := SplitChild(t, p, c);
    SplitNodeOk(t.cs[p], c, d - 1);
    SplitChildContents(t, p, c);
    FlatHead(t.cs);
    SplitKids(t, p, SplitNode(t.cs[p], c), c, d, s);
    NodeOk(s, c, d);
  }

  lemma {:induction false} SplitKids(t: Tree, p: nat, x: Pair, c: Caps, d: nat, s: Tree)
    requires t.Node? && Arity(t) && p < |t.cs| && Level(t, d) && Separated(t)
    requires forall i :: 0 <= i < |t.cs| && i != p ==> Filled(t.cs[i], c, false)
    requires KidOk(x.l, c, d) && KidOk(x.r, c, d) && FirstKey(x.l) == FirstKey(t.cs[p]) && FirstKey(x.r) == x.k
    requires s == Node(t.ks[..p] + [x.k] + t.ks[p..], t.cs[..p] + [x.l, x.r] + t.cs[p + 1..])
    ensures forall i :: 0 <= i < |s.cs| ==> KidOk(s.cs[i], c, d)
    ensures forall i :: 0 <= i < |s.ks| ==> s.ks[i] == FirstKey(s.cs[i + 1])
  {
    forall i | 0 <= i < |s.cs|
      ensures KidOk(s.cs[i], c, d) && (i > 0 ==> s.ks[i - 1] == FirstKey(s.cs[i]))
    {
      var j := if i < p then i else if i > p + 1 then i - 1 else p;
      assert Level(t.cs[j], d - 1) && Separated(t.cs[j]) && Contents(t.cs[j]) != [];
      assert j > 0 ==> t.ks[j - 1] == FirstKey(t.cs[j - 1 + 1]);
      if i < p {
        assert s.cs[i] == t.cs[i] && (i > 0 ==> s.ks[i - 1] == t.ks[i - 1]);
      } else if i > p + 1 {
        assert s.cs[i] == t.cs[i - 1] && s.ks[i - 1] == t.ks[i - 2];
      } else if i == p {
        assert s.cs[i] == x.l && (i > 0 ==> s.ks[i - 1] == t.ks[i - 1]);
      } else {
        assert s.cs[i] == x.r && s.ks[i - 1] == x.k;
      }
    }
  }

  ghost predicate KidOk(k: Tree, c: Caps, d: nat)
  {
    d > 1 && Separated(k) && Contents(k) != [] && Level(k, d - 1) && Filled(k, c, false)
  }

  lemma {:induction false} NodeOk(s: Tree, c: Caps, d: nat)
    requires s.Node? && Arity(s) && d > 1
    requires forall i :: 0 <= i < |s.cs| ==> KidOk(s.cs[i], c, d)
    requires forall i :: 0 <= i < |s.ks| ==> KidOk(s.cs[i + 1], c, d) && s.ks[i] == FirstKey(s.cs[i + 1])
    ensures Level(s, d) && Separated(s) && KidsFilled(s, c) && Contents(s) != []
  {
    FlatHead(s.cs);
  }

  // A split root becomes the two children of a new root.
  lemma {:induction false} SplitRootOk(t: Tree, c: Caps, d: nat)
    requires CapsOk(c) && Overfull(t, c) && Level(t, d) && Separated(t) && KidsFilled(t, c)
    ensures var x := SplitNode(t, c); var s := Node([x.k], [x.l, x.r]);
            Level(s, d + 1) && Separated(s) && Filled(s, c, true) && Contents(s) == Contents(t)
  {
    var x := SplitNode(t, c);
    SplitNodeOk(t, c, d);
    assert [x.l, x.r] == [x.l] + [x.r];
    FlatAppend([x.l], [x.r]);
  }

  // ---- borrow and merge (block_tree_node_merge) ----

  predicate Underfull(t: Tree, c: Caps) { Arity(t) && Count(t) + 1 == MinCount(t, c) }

  predicate SameKind(l: Tree, r: Tree) { l.Leaf? == r.Leaf? }

  // The left node takes the first entry of the right node.
  function FromRight(l: Tree, k: nat, r: Tree): Pair
    requires SameKind(l, r) && Arity(l) && Arity(r)
    requires if r.Leaf? then Count(r) >= 2 else Count(r) >= 1
  {
    if l.Leaf?
    then Pair(Leaf(l.es + [r.es[0]]), r.es[1].key, Leaf(r.es[1..]))
    else Pair(Node(l.ks + [k], l.cs + [r.cs[0]]), r.ks[0], Node(r.ks[1..], r.cs[1..]))
  }

  // The right node takes the last entry of the left node.
  function FromLeft(l: Tree, k: nat, r: Tree): Pair
    requires SameKind(l, r) && Arity(l) && Arity(r) && Count(l) >= 1
  {
    var n := Count(l) - 1;
    if l.Leaf?
    then Pair(Leaf(l.es[..n]), l.es[n].key, Leaf([l.es[n]] + r.es))
    else Pair(Node(l.ks[..n], l.cs[..n + 1]), l.ks[n], Node([k] + r.ks, [l.cs[n + 1]] + r.cs))
  }

  function MergeNodes(l: Tree, k: nat, r: Tree): Tree
    requires SameKind(l, r)
  {
    if l.Leaf? then Leaf(l.es + r.es) else Node(l.ks + [k] + r.ks, l.cs + r.cs)
  }

  // What a pair of siblings must satisfy before rebalancing; an emptied leaf has no usable separator.
  ghost predicate SiblingsOk(l: Tree, k: nat, r: Tree, d: nat)
  {
    && Level(l, d) && Level(r, d) && Separated(l) && Separated(r)
    && (l.Node? ==> Contents(r) != [] && k == FirstKey(r))
  }

  lemma {:induction false} FromRightOk(l: Tree, k: nat, r: Tree, c: Caps, d: nat)
    requires CapsOk(c) && SiblingsOk(l, k, r, d) && SameKind(l, r) && Arity(l) && Arity(r)
    requires Underfull(l, c) && KidsFilled(l, c) && Filled(r, c, false) && Count(r) > MinCount(r, c)
    ensures var x := FromRight(l, k, r);
            && Level(x.l, d) && Level(x.r, d) && Separated(x.l) && Separated(x.r)
            && Filled(x.l, c, false) && Filled(x.r, c, false)
            && Contents(x.l) + Contents(x.r) == Contents(l) + Contents(r)
            && Contents(x.l) != [] && Contents(x.r) != [] && x.k == FirstKey(x.r)
  {
    var x := FromRight(l, k, r);
    if l.Node? {
      FlatAppend(l.cs, [r.cs[0]]);
      assert Flat([r.cs[0]]) == Contents(r.cs[0]);
      FlatHead(r.cs);
      FlatHead(x.l.cs);
      FlatHead(x.r.cs);
      assert Contents(r) == Contents(r.cs[0]) + Flat(r.cs[1..]);
    }
  }

  lemma {:induction false} FromLeftFill(l: Tree, k: nat, r: Tree, c: Caps, d: nat)
    requires CapsOk(c) && SiblingsOk(l, k, r, d) && SameKind(l, r) && Arity(l) && Arity(r)
    requires Underfull(r, c) && KidsFilled(r, c) && Filled(l, c, false) && Count(l) > MinCount(l, c)
    ensures var x := FromLeft(l, k, r);
            Level(x.l, d) && Level(x.r, d) && Filled(x.l, c, false) && Filled(x.r, c, false)
  {
    hide Separated, Contents;
  }

  lemma {:induction false} FromLeftOk(l: Tree, k: nat, r: Tree, c: Caps, d: nat)
    requires CapsOk(c) && SiblingsOk(l, k, r, d) && SameKind(l, r) && Arity(l) && Arity(r)
    requires Underfull(r, c) && KidsFilled(r, c) && Filled(l, c, false) && Count(l) > MinCount(l, c)
    ensures var x := FromLeft(l, k, r);
            && Level(x.l, d) && Level(x.r, d) && Separated(x.l) && Separated(x.r)
            && Filled(x.l, c, false) && Filled(x.r, c, false)
            && Contents(x.l) + Contents(x.r) == Contents(l) + Contents(r)
            && Contents(x.l) != [] && Contents(x.r) != [] && x.k == FirstKey(x.r)
  {
    FromLeftFill(l, k, r, c, d);
    hide Filled, KidsFilled;
    var x := FromLeft(l, k, r);
    if l.Node? {
      var n := Count(l) - 1;
      FlatAppend(l.cs[..n + 1], [l.cs[n + 1]]);
      assert l.cs == l.cs[..n + 1] + [l.cs[n + 1]];
      FlatAppend([l.cs[n + 1]], r.cs);
      OneFlat(l.cs[n + 1]);
      FlatHead(l.cs);
      FlatHead(r.cs);
      FlatHead(x.l.cs);
      FlatHead(x.r.cs);
    }
  }

  lemma {:induction false} MergeNodesOk(l: Tree, k: nat, r: Tree, c: Caps, d: nat)
    requires CapsOk(c) && SiblingsOk(l, k, r, d) && SameKind(l, r) && Arity(l) && Arity(r)
    requires KidsFilled(l, c) && KidsFilled(r, c)
    requires Count(l) + Count(r) + 1 == 2 * MinCount(l, c)
    ensures var m := MergeNodes(l, k, r);
            && Level(m, d) && Separated(m) && Filled(m, c, false)
            && Contents(m) == Contents(l) + Contents(r) && Contents(m) != []
  {
    var m := MergeNodes(l, k, r);
    if l.Node? {
      FlatAppend(l.cs, r.cs);
      FlatHead(l.cs);
      FlatHead(r.cs);
      FlatHead(m.cs);
    }
  }

  // ---- rebalancing inside the parent ----

  predicate Above(t: Tree, c: Caps) { Count(t) > MinCount(t, c) }

  // block_tree_sibling_index
  function Sibling(p: nat): nat { if p == 0 then 1 else p - 1 }

  function SetPair(t: Tree, q: nat, x: Pair): Tree
    requires t.Node? && Arity(t) && q < |t.ks|
  {
    Node(t.ks[q := x.k], t.cs[..q] + [x.l, x.r] + t.cs[q + 2..])
  }

  function JoinPair(t: Tree, q: nat, m: Tree): Tree
    requires t.Node? && Arity(t) && q < |t.ks|
  {
    Node(t.ks[..q] + t.ks[q + 1..], t.cs[..q] + [m] + t.cs[q + 2..])
  }

  lemma {:induction false} FlatPair(cs: seq<Tree>, q: nat)
    requires q + 1 < |cs|
    ensures Flat(cs) == Flat(cs[..q]) + (Contents(cs[q]) + Contents(cs[q + 1])) + Flat(cs[q + 2..])
  {
    FlatSplit(cs, q);
    assert cs[q + 1..][1..] == cs[q + 2..];
  }

  // Parent t+ has right separators; in t child p was replaced by n, which is either
  // the same child or that child with its only entry removed.
  ghost predicate Emptied(t0: Tree, t: Tree, p: nat)
  {
    && t0.Node? && t.Node? && p < |t0.cs|
    && t.ks == t0.ks && |t.cs| == |t0.cs|
    && (forall i :: 0 <= i < |t.cs| && i != p ==> t.cs[i] == t0.cs[i])
    && (t.cs[p] == t0.cs[p] || (t.cs[p] == Leaf([]) && t0.cs[p].Leaf?))
  }

  lemma {:induction false} SetPairOk(t0: Tree, t: Tree, p: nat, q: nat, x: Pair, c: Caps, d: nat)
    requires Emptied(t0, t, p) && Separated(t0) && Level(t, d) && q + 1 < |t.cs|
    requires q == p == 0 || q + 1 == p
    requires Level(x.l, d - 1) && Level(x.r, d - 1) && Separated(x.l) && Separated(x.r)
    requires Filled(x.l, c, false) && Filled(x.r, c, false)
    requires Contents(x.l) + Contents(x.r) == Contents(t.cs[q]) + Contents(t.cs[q + 1])
    requires Contents(x.l) != [] && Contents(x.r) != [] && x.k == FirstKey(x.r)
    requires forall i :: 0 <= i < |t.cs| && i != p ==> Filled(t.cs[i], c, false)
    ensures var s := SetPair(t, q, x);
            && Level(s, d) && Separated(s) && KidsFilled(s, c) && Contents(s) == Contents(t) && Contents(s) != []
            && (t.cs[p] == t0.cs[p] || p != 0 ==> Contents(t0) != [] && FirstKey(s) == FirstKey(t0))
            && (p == 0 ==> FirstKey(s) == FirstKey(x.l))
  {
    var s := SetPair(t, q, x);
    FlatPair(t.cs, q);
    FlatPair(s.cs, q);
    assert s.cs[..q] == t.cs[..q] && s.cs[q + 2..] == t.cs[q + 2..];
    FlatHead(t0.cs);
    var both := Contents(x.l) + Contents(x.r);
    assert q != p ==> both[0] == Contents(t.cs[q])[0] == Contents(t0.cs[q])[0];
    assert t.cs[p] == t0.cs[p] ==> both[0] == Contents(t0.cs[q])[0];
    forall i | 0 <= i < |s.cs|
      ensures KidOk(s.cs[i], c, d)
    {
      assert i != q && i != q + 1 ==> s.cs[i] == t.cs[i] == t0.cs[i];
    }
    forall i | 0 <= i < |s.ks|
      ensures s.ks[i] == FirstKey(s.cs[i + 1])
    {
      assert i != q ==> s.ks[i] == t0.ks[i] == FirstKey(t0.cs[i + 1]);
    }
    NodeOk(s, c, d);
    FlatHead(s.cs);
  }

  lemma {:induction false} JoinPairOk(t0: Tree, t: Tree, p: nat, q: nat, m: Tree, c: Caps, d: nat)
    requires Emptied(t0, t, p) && Separated(t0) && Level(t, d) && q + 1 < |t.cs|
    requires q == p == 0 || q + 1 == p
    requires Level(m, d - 1) && Separated(m) && Filled(m, c, false)
    requires Contents(m) == Contents(t.cs[q]) + Contents(t.cs[q + 1]) && Contents(m) != []
    requires forall i :: 0 <= i < |t.cs| && i != p ==> Filled(t.cs[i], c, false)
    ensures var s := JoinPair(t, q, m);
            && Level(s, d) && Separated(s) && KidsFilled(s, c) && Contents(s) == Contents(t) && Contents(s) != []
            && (t.cs[p] == t0.cs[p] || p != 0 ==> Contents(t0) != [] && FirstKey(s) == FirstKey(t0))
            && (p == 0 ==> FirstKey(s) == FirstKey(m))
  {
    var s := JoinPair(t, q, m);
    JoinPairContents(t, q, m);
    FlatHead(t0.cs);
    assert q != p || t.cs[p] == t0.cs[p] ==> Contents(m)[0] == Contents(t0.cs[q])[0];
    forall i | 0 <= i < |s.cs|
      ensures KidOk(s.cs[i], c, d)
    {
      assert i < q ==> s.cs[i] == t.cs[i] == t0.cs[i];
      assert i > q ==> s.cs[i] == t.cs[i + 1] == t0.cs[i + 1];
    }
    forall i | 0 <= i < |s.ks|
      ensures KidOk(s.cs[i + 1], c, d) && s.ks[i] == FirstKey(s.cs[i + 1])
    {
      JoinPairKey(t0, t, p, q, m, i);
    }
    NodeOk(s, c, d);
    FlatHead(s.cs);
  }

  lemma {:induction false} JoinPairKey(t0: Tree, t: Tree, p: nat, q: nat, m: Tree, i: nat)
    requires Emptied(t0, t, p) && Separated(t0) && |t.cs| == |t.ks| + 1 && q + 1 < |t.cs| && i + 1 < |t.ks|
    requires q == p == 0 || q + 1 == p
    requires Contents(m) == Contents(t.cs[q]) + Contents(t.cs[q + 1]) && Contents(m) != []
    ensures var s := JoinPair(t, q, m);
            |s.ks| == |t.ks| - 1 && |s.cs| == |t.ks| && Contents(s.cs[i + 1]) != [] && s.ks[i] == FirstKey(s.cs[i + 1])
  {
    var s := JoinPair(t, q, m);
    if i < q {
      assert s.ks[i] == t0.ks[i] == FirstKey(t0.cs[i + 1]);
    } else {
      assert s.ks[i] == t0.ks[i + 1] == FirstKey(t0.cs[i + 2]) && s.cs[i + 1] == t.cs[i + 2];
    }
  }

  lemma {:induction false} JoinPairContents(t: Tree, q: nat, m: Tree)
    requires t.Node? && Arity(t) && q < |t.ks|
    requires Contents(m) == Contents(t.cs[q]) + Contents(t.cs[q + 1])
    ensures Contents(JoinPair(t, q, m)) == Contents(t)
  {
    var s := JoinPair(t, q, m);
    FlatPair(t.cs, q);
    FlatSplit(s.cs, q);
    assert s.cs[..q] == t.cs[..q] && s.cs[q + 1..] == t.cs[q + 2..];
  }
}
