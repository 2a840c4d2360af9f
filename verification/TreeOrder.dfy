// The order checks that block_tree_node_split makes before it adds a key to the parent.
module TreeOrder {
  import opened TreeModel
  import opened TreeSteps
  import opened TreeSearch
  import opened TreeInsert

  ghost predicate DistinctKeys(C: seq<Entry>)
  {
    forall i, j :: 0 <= i < j < |C| ==> C[i].key != C[j].key
  }

  // The keys stored in one node.
  function Keys(t: Tree): (ks: seq<nat>)
    ensures |ks| == Count(t)
  {
    if t.Leaf? then seq(|t.es|, i requires 0 <= i < |t.es| => t.es[i].key) else t.ks
  }

  function Occurs(ks: seq<nat>, k: nat): nat
  {
    if ks == [] then 0 else Occurs(ks[..|ks| - 1], k) + if ks[|ks| - 1] == k then 1 else 0
  }

  ghost predicate Rising(ks: seq<nat>, top: nat)
  {
    (forall i, j :: 0 <= i < j < |ks| ==> ks[i] <= ks[j]) && (forall i :: 0 <= i < |ks| ==> ks[i] <= top)
  }

  // Among rising keys up to k, the one at j is k exactly if all from j on are.
  lemma {:induction false} OccursFrom(ks: seq<nat>, k: nat, j: nat)
    requires Rising(ks, k) && j < |ks|
    ensures Occurs(ks, k) >= |ks| - j <==> ks[j] == k
    ensures ks[|ks| - 1] != k ==> Occurs(ks, k) == 0
    decreases |ks|
  {
    var n := |ks| - 1;
    assert j < n ==> ks[j] <= ks[n];
    if n > 0 {
      assert ks[n - 1] <= ks[n];
      OccursFrom(ks[..n], k, if j < n then j else n - 1);
    }
  }

  // What the split of child p is about: its entries, its first one, and the next child's.
  lemma {:induction false} ChildFacts(t: Tree, p: nat, c: Caps, d: nat)
    requires CapsOk(c) && t.Node? && Arity(t) && p < |t.cs| && Overfull(t.cs[p], c)
    requires Level(t, d) && Separated(t) && KidsFilled(t.cs[p], c)
    ensures var x := SplitNode(t.cs[p], c);
            && Contents(t) == Flat(t.cs) && Contents(t.cs[p]) == Contents(x.l) + Contents(x.r)
            && Contents(x.l) != [] && Contents(x.r) != [] && FirstKey(x.r) == x.k
            && (p > 0 ==> t.ks[p - 1] == Contents(x.l)[0].key)
            && (p < |t.ks| ==> p + 1 < |t.cs| && Contents(t.cs[p + 1]) != [] && t.ks[p] == FirstKey(t.cs[p + 1]))
  {
    SplitNodeOk(t.cs[p], c, d - 1);
  }

  // The keys of a node are keys of entries below it, in order.
  lemma {:induction false} KeysRise(t: Tree, top: nat, d: nat)
    requires Level(t, d) && Separated(t) && Arity(t)
             && (forall i :: 0 <= i < |Contents(t)| ==> Contents(t)[i].key <= top) && Sorted(Contents(t))
    ensures Rising(Keys(t), top)
  {
    var C := Contents(t);
    if t.Leaf? {
      forall i, j | 0 <= i < j < |t.es|
        ensures Keys(t)[i] <= Keys(t)[j]
      {
        assert Le(C, i, j);
      }
    } else {
      forall i | 0 <= i < |t.ks|
        ensures t.ks[i] <= top
      {
        var a := KeyPlace(t, i);
      }
      forall i, j | 0 <= i < j < |t.ks|
        ensures t.ks[i] <= t.ks[j]
      {
        var a, b := KeyPlace(t, i), KeyPlace(t, j);
        PlacesRise(t, i, j);
        assert a < b ==> Le(C, a, b);
      }
    }
  }

  // Where the first entry of child i + 1 is.
  function KeyPlace(t: Tree, i: nat): (a: nat)
    requires t.Node? && Separated(t) && i < |t.ks|
    ensures a < |Contents(t)| && Contents(t)[a].key == t.ks[i]
  {
    FlatSplit(t.cs, i + 1);
    |Flat(t.cs[..i + 1])|
  }

  lemma {:induction false} PlacesRise(t: Tree, i: nat, j: nat)
    requires t.Node? && Separated(t) && i < j < |t.ks|
    ensures KeyPlace(t, i) <= KeyPlace(t, j)
  {
    FlatAppend(t.cs[..i + 1], t.cs[i + 1..j + 1]);
    assert t.cs[..i + 1] + t.cs[i + 1..j + 1] == t.cs[..j + 1];
  }

  // The key that moves up fits between its neighbours. Against the right neighbour it is strictly
  // smaller, as the source asserts, if and only if too few keys of the overfull node equal that
  // neighbour to fill its right half; distinct keys always pass.
  lemma {:induction false} SplitKeyOrder(t: Tree, p: nat, c: Caps, d: nat)
    requires CapsOk(c) && t.Node? && Arity(t) && p < |t.cs| && Overfull(t.cs[p], c)
    requires Level(t, d) && Separated(t) && KidsFilled(t.cs[p], c) && Sorted(Contents(t))
    ensures var n, k, max := t.cs[p], SplitNode(t.cs[p], c).k, MaxCount(t.cs[p], c);
            && (p > 0 ==> t.ks[p - 1] <= k)
            && (p < |t.ks| ==> k <= t.ks[p])
            && (p < |t.ks| ==> (k < t.ks[p] <==> Occurs(Keys(n), t.ks[p]) < max + 1 - (max + 1) / 2))
            && (p < |t.ks| && DistinctKeys(Contents(t)) ==> k < t.ks[p])
  {
    hide Separated, Level, KidsFilled, Contents, Flat, Occurs, SplitNode, Rising;
    var n, x, C := t.cs[p], SplitNode(t.cs[p], c), Contents(t);
    ChildFacts(t, p, c, d);
    FlatSplit(t.cs, p);
    var a, l, r := |Flat(t.cs[..p])|, Contents(x.l), Contents(x.r);
    assert C[a..a + |l| + |r|] == l + r;
    assert C[a] == l[0] && C[a + |l|] == r[0];
    assert Le(C, a, a + |l|);
    if p < |t.ks| {
      var e := a + |l| + |r|;
      FlatHead(t.cs[p + 1..]);
      assert C[e] == Flat(t.cs[p + 1..])[0];
      assert Le(C, a + |l|, e);
      forall i | 0 <= i < |l + r|
        ensures (l + r)[i].key <= t.ks[p]
      {
        assert (l + r)[i] == C[a + i];
        assert Le(C, a + i, e);
      }
      PartSorted(C, a, e);
      ChildGood(t, p, d);
      KeysRise(n, t.ks[p], d - 1);
      SplitAt(n, c);
      OccursFrom(Keys(n), t.ks[p], (MaxCount(n, c) + 1) / 2);
    }
  }

  lemma PartSorted(C: seq<Entry>, i: nat, j: nat)
    requires Sorted(C) && i <= j <= |C|
    ensures Sorted(C[i..j])
  {
    forall a, b | 0 <= a < b < j - i
      ensures Le(C[i..j], a, b)
    {
      assert Le(C, i + a, i + b);
    }
  }

  lemma ChildGood(t: Tree, p: nat, d: nat)
    requires t.Node? && p < |t.cs| && Level(t, d) && Separated(t)
    ensures d > 0 && Level(t.cs[p], d - 1) && Separated(t.cs[p])
  {
  }

  lemma SplitAt(n: Tree, c: Caps)
    requires CapsOk(c) && Overfull(n, c)
    ensures (MaxCount(n, c) + 1) / 2 < |Keys(n)| == MaxCount(n, c) + 1
            && SplitNode(n, c).k == Keys(n)[(MaxCount(n, c) + 1) / 2]
  {
  }

  // With equal keys the strict comparison can fail: inserting key 3 into a good tree whose other
  // keys are 5 overfills the first leaf, and the key that moves up equals its right neighbour.
  lemma {:induction false} SplitKeyEqual()
    ensures var c, l, r := Caps(2, 2), [Entry(5, 2), Entry(5, 3)], Leaf([Entry(5, 4)]);
            var t := Node([5], [Leaf(l), r]);
            var u := Replace(t, [0], Leaf(InsertAt(l, 0, Entry(3, 1))));
            && CapsOk(c) && Good(t, 2, c) && AtCeil(Contents(t), 0, 3)
            && u.Node? && |u.cs| == 2 && |u.ks| == 1 && Overfull(u.cs[0], c) && SplitNode(u.cs[0], c).k == u.ks[0]
  {
    hide Sorted, AtCeil;
    var c, l, r := Caps(2, 2), [Entry(5, 2), Entry(5, 3)], Leaf([Entry(5, 4)]);
    var t := Node([5], [Leaf(l), r]);
    EqualKeysSorted();
    OneFlat(r);
    assert t.cs[1..] == [r];
    assert Flat(t.cs) == l + r.es == [Entry(5, 2), Entry(5, 3), Entry(5, 4)];
    assert Filled(t.cs[0], c, false) && Filled(t.cs[1], c, false) && Filled(t, c, true);
    assert Level(t.cs[0], 1) && Level(t.cs[1], 1) && Level(t, 2);
    assert Separated(t.cs[0]) && Separated(t.cs[1]) && Separated(t);
    assert InsertAt(l, 0, Entry(3, 1)) == [Entry(3, 1), Entry(5, 2), Entry(5, 3)];
    assert Replace(t, [0], Leaf([Entry(3, 1), Entry(5, 2), Entry(5, 3)])) == Node([5],
      [Leaf([Entry(3, 1), Entry(5, 2), Entry(5, 3)]), r]);
  }

  lemma EqualKeysSorted()
    ensures var C := [Entry(5, 2), Entry(5, 3), Entry(5, 4)]; Sorted(C) && AtCeil(C, 0, 3)
  {
    var C := [Entry(5, 2), Entry(5, 3), Entry(5, 4)];
    forall k | 0 <= k < |C|
      ensures CeilAt(C, 0, 3, k)
    {
    }
  }
}
