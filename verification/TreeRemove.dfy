// Removing an entry: what the tree looks like while one node is short of entries, and how
// borrowing, merging and updating a separator restore it.
module TreeRemove {
  import opened TreeModel
  import opened TreeSteps
  import opened TreeStore
  import opened TreeSearch
  import opened TreePath
  import opened TreeLinks
  import opened TreeSplit

  function RemoveAt(es: seq<Entry>, i: nat): seq<Entry>
    requires i < |es|
  {
    es[..i] + es[i + 1..]
  }

  lemma SortedRemove(C: seq<Entry>, pos: nat)
    requires Sorted(C) && pos < |C|
    ensures Sorted(RemoveAt(C, pos))
  {
    var D := RemoveAt(C, pos);
    forall i, j | 0 <= i < j < |D|
      ensures Le(D, i, j)
    {
      assert Le(C, if i < pos then i else i + 1, if j < pos then j else j + 1);
    }
  }

  // ---- separators ----

  // Updating the separator rewrites one ancestor.
  lemma {:induction false} SetLowAt(t: Tree, p: seq<nat>, k: nat, j: nat)
    requires Along(t, p) && j < |p| && p[j] > 0 && AllZero(p[j + 1..])
    ensures Along(t, p[..j]) && At(t, p[..j]).Node?
    ensures var n := At(t, p[..j]);
            p[j] <= |n.ks| ==> SetLow(t, p, k) == Replace(t, p[..j], Node(n.ks[p[j] - 1 := k], n.cs))
    decreases |p|
  {
    if j == 0 {
      assert p[..0] == [] && p[1..] == p[0 + 1..];
    } else {
      assert p[1..][j - 1 + 1..] == p[j + 1..] && p[1..][j - 1] == p[j] && p[..j][1..] == p[1..][..j - 1];
      SetLowAt(t.cs[p[0]], p[1..], k, j - 1);
      assert !AllZero(p[1..]);
    }
  }

  // ---- one node short ----

  // The node at p is one entry short. Separators are right in t0, which differs from t at most
  // in that the leaf at p still has its last entry there.
  ghost predicate ShortAt(t: Tree, t0: Tree, p: seq<nat>, c: Caps)
  {
    && p != [] && Along(t, p) && Along(t0, p) && Separated(t0) && t == Replace(t0, p, At(t, p))
    && (At(t, p) == At(t0, p) || (At(t, p) == Leaf([]) && At(t0, p).Leaf?))
    && Underfull(At(t, p), c) && KidsFilled(At(t, p), c) && FilledAround(t, p, c, true)
  }

  // The same seen from the parent.
  lemma {:induction false} ShortParent(t: Tree, t0: Tree, q: seq<nat>, i: nat, c: Caps, d: nat)
    requires ShortAt(t, t0, q + [i], c) && Level(t, d)
    ensures Along(t, q) && Along(t0, q) && At(t, q).Node? && i < |At(t, q).cs| && At(t, q).cs[i] == At(t, q + [i])
    ensures Emptied(At(t0, q), At(t, q), i) && Separated(At(t0, q)) && t == Replace(t0, q, At(t, q))
    ensures |q| < d && Level(At(t, q), d - |q|) && Arity(At(t, q)) && CountOk(At(t, q), c, q == [])
            && FilledAround(t, q, c, true)
    ensures forall j :: 0 <= j < |At(t, q).cs| && j != i ==> Filled(At(t, q).cs[j], c, false)
    ensures At(t, q + [i]) == At(t0, q + [i]) ==> At(t, q) == At(t0, q)
  {
    AtSnoc(t, q, i);
    AtSnoc(t0, q, i);
    ReplaceSnoc(t0, q, i, At(t, q + [i]));
    ReplaceAt(t0, q, Node(At(t0, q).ks, At(t0, q).cs[i := At(t, q + [i])]));
    SeparatedAt(t0, q);
    ReplaceLevel(t, q, At(t, q), d);
    FilledSnoc(t, q, i, c, true);
    if At(t, q + [i]) == At(t0, q + [i]) {
      assert At(t0, q).cs[i := At(t0, q).cs[i]] == At(t0, q).cs;
    }
  }

  // The parent at q was rewritten as s. If the short leaf was emptied and leftmost below q,
  // the separator left of q is updated too.
  ghost function Refit(t: Tree, q: seq<nat>, s: Tree, low: bool): Tree
    requires Along(t, q) && Contents(s) != []
  {
    ReplaceAt(t, q, s);
    if low then SetLow(Replace(t, q, s), q, FirstKey(s)) else Replace(t, q, s)
  }

  lemma {:induction false} RefitOrder(t: Tree, t0: Tree, q: seq<nat>, s: Tree, low: bool, d: nat)
    requires Along(t, q) && Along(t0, q) && Separated(t0) && t == Replace(t0, q, At(t, q)) && Level(t, d)
    requires |q| < d && Level(s, d - |q|) && Separated(s) && Contents(s) != [] && Contents(s) == Contents(At(t, q))
    requires low || (Contents(At(t0, q)) != [] && FirstKey(s) == FirstKey(At(t0, q)))
    ensures var u := Refit(t, q, s, low);
            Level(u, d) && Separated(u) && Contents(u) == Contents(t) && Along(u, q) && At(u, q) == s
  {
    ReplaceTwice(t0, q, At(t, q), s);
    ReplaceContents(t, q, s);
    ContentsAt(t, q);
    ReplaceLevel(t, q, s, d);
    ReplaceAt(t, q, s);
    if low {
      SeparatedSetLow(t0, q, s);
      SetLowShape(Replace(t, q, s), q, FirstKey(s));
    } else {
      SeparatedReplace(t0, q, s);
    }
  }

  lemma {:induction false} RefitFill(t: Tree, q: seq<nat>, s: Tree, low: bool, c: Caps)
    requires Along(t, q) && Contents(s) != [] && FilledAround(t, q, c, true)
    ensures var u := Refit(t, q, s, low); Along(u, q) && At(u, q) == s && FilledAround(u, q, c, true)
    ensures Filled(s, c, q == []) ==> Filled(Refit(t, q, s, low), c, true)
  {
    ReplaceAt(t, q, s);
    FilledReplace(t, q, s, c, true);
    var u := Refit(t, q, s, low);
    if low {
      SetLowShape(Replace(t, q, s), q, FirstKey(s));
      SetLowFilled(Replace(t, q, s), q, FirstKey(s), c, true);
    }
    FilledReplace(u, q, s, c, true);
    ReplaceSame(u, q);
  }

  // ---- rebalancing the children of a parent ----

  ghost predicate Low(t: Tree, t0: Tree, p: seq<nat>)
    requires Along(t, p) && Along(t0, p)
  {
    At(t, p) != At(t0, p) && p != [] && p[|p| - 1] == 0
  }

  // s can take the place of the parent n, whose child i is short.
  ghost predicate Rebalanced(n0: Tree, n: Tree, i: nat, s: Tree, c: Caps, d: nat)
  {
    && Level(s, d) && Separated(s) && KidsFilled(s, c) && Arity(s) && s.Node?
    && Contents(s) != [] && Contents(s) == Contents(n)
    && (n == n0 || i != 0 ==> Contents(n0) != [] && FirstKey(s) == FirstKey(n0))
  }

  // The sibling has entries to spare.
  lemma {:induction false} BorrowPair(n0: Tree, n: Tree, i: nat, c: Caps, d: nat) returns (x: Pair)
    requires CapsOk(c) && d > 0 && Emptied(n0, n, i) && Separated(n0) && Level(n, d) && Arity(n) && |n.ks| >= 1
    requires Underfull(n.cs[i], c) && KidsFilled(n.cs[i], c)
    requires forall j :: 0 <= j < |n.cs| && j != i ==> Filled(n.cs[j], c, false)
    requires Above(n.cs[Sibling(i)], c)
    ensures var a := if i == 0 then 0 else i - 1;
            && a < |n.ks| && SameKind(n.cs[a], n.cs[a + 1]) && Arity(n.cs[a]) && Arity(n.cs[a + 1])
            && (i == 0 ==> (if n.cs[1].Leaf? then Count(n.cs[1]) >= 2 else Count(n.cs[1]) >= 1)
                           && x == FromRight(n.cs[0], n.ks[0], n.cs[1]))
            && (i != 0 ==> Count(n.cs[a]) >= 1 && x == FromLeft(n.cs[a], n.ks[a], n.cs[i]))
            && Rebalanced(n0, n, i, SetPair(n, a, x), c, d)
  {
    var a := if i == 0 then 0 else i - 1;
    assert Level(n.cs[a], d - 1) && Level(n.cs[a + 1], d - 1);
    KidsSeparated(n0, n, i, a);
    if i == 0 {
      x := FromRight(n.cs[0], n.ks[0], n.cs[1]);
      FromRightOk(n.cs[0], n.ks[0], n.cs[1], c, d - 1);
    } else {
      x := FromLeft(n.cs[a], n.ks[a], n.cs[i]);
      FromLeftOk(n.cs[a], n.ks[a], n.cs[i], c, d - 1);
    }
    hide Filled, KidsFilled;
    SetPairOk(n0, n, i, a, x, c, d);
  }

  // The sibling has none to spare: the two nodes become one.
  lemma {:induction false} JoinNodes(n0: Tree, n: Tree, i: nat, c: Caps, d: nat)
    requires CapsOk(c) && d > 0 && Emptied(n0, n, i) && Separated(n0) && Level(n, d) && Arity(n) && |n.ks| >= 1
    requires Underfull(n.cs[i], c) && KidsFilled(n.cs[i], c)
    requires forall j :: 0 <= j < |n.cs| && j != i ==> Filled(n.cs[j], c, false)
    requires !Above(n.cs[Sibling(i)], c)
    ensures var a := if i == 0 then 0 else i - 1;
            && a < |n.ks| && SameKind(n.cs[a], n.cs[a + 1])
            && var m := MergeNodes(n.cs[a], n.ks[a], n.cs[a + 1]);
               && Count(m) <= MaxCount(m, c) && Filled(m, c, false) && Rebalanced(n0, n, i, JoinPair(n, a, m), c, d)
  {
    var a := if i == 0 then 0 else i - 1;
    assert Level(n.cs[a], d - 1) && Level(n.cs[a + 1], d - 1);
    assert Filled(n.cs[Sibling(i)], c, false);
    KidsSeparated(n0, n, i, a);
    MergeNodesOk(n.cs[a], n.ks[a], n.cs[a + 1], c, d - 1);
    JoinPairOk(n0, n, i, a, MergeNodes(n.cs[a], n.ks[a], n.cs[a + 1]), c, d);
  }

  // The whole tree after the parent at q was rebalanced.
  lemma {:induction false} RefitOk(t: Tree, t0: Tree, q: seq<nat>, i: nat, s: Tree, c: Caps, d: nat)
    requires ShortAt(t, t0, q + [i], c) && Level(t, d) && |q| < d
    requires Along(t, q) && Along(t0, q) && Rebalanced(At(t0, q), At(t, q), i, s, c, d - |q|)
    ensures var u := Refit(t, q, s, Low(t, t0, q + [i]));
            && Level(u, d) && Separated(u) && Contents(u) == Contents(t)
            && Along(u, q) && At(u, q) == s && FilledAround(u, q, c, true)
            && (CountOk(s, c, q == []) ==> Filled(u, c, true))
  {
    ShortParent(t, t0, q, i, c, d);
    var low := Low(t, t0, q + [i]);
    RefitOrder(t, t0, q, s, low, d);
    RefitFill(t, q, s, low, c);
  }

  lemma {:induction false} KidsSeparated(n0: Tree, n: Tree, i: nat, a: nat)
    requires Emptied(n0, n, i) && Separated(n0) && a + 1 < |n.cs| && Arity(n) && (a == i || a + 1 == i)
    ensures Separated(n.cs[a]) && Separated(n.cs[a + 1])
    ensures n.cs[a].Node? && n.cs[a + 1].Node? ==> Contents(n.cs[a + 1]) != [] && n.ks[a] == FirstKey(n.cs[a + 1])
  {
  }
}
