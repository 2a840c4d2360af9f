// One node of a stored tree is an entry short: what borrowing or merging leaves behind.
module TreeShort {
  import opened TreeModel
  import opened TreeSteps
  import opened TreeStore
  import opened TreeSearch
  import opened TreePath
  import opened TreeLinks
  import opened TreeSplit
  import opened TreeMerge
  import opened TreeRemove
  import opened TreeRebalance
  import opened TreeKeys

  // The node at the end of es, not the root, is one entry short.
  ghost predicate Short(x: Layout, root: nat, t: Tree, t0: Tree, d: nat, c: Caps, es: seq<PathEntry>)
  {
    && Laid(x, root, t, c) && |es| > 1 && Linked(x.st, root, es) && OwnedPath(x.owned, es)
    && Hints(x.st, es[..|es| - 1])
    && Level(t, d) && Sorted(Contents(t)) && ShortAt(t, t0, Idx(es[..|es| - 1]), c)
  }

  // An internal node lost a key: it may be short, or a root without keys.
  ghost predicate Shrunk(x: Layout, root: nat, t: Tree, d: nat, c: Caps, es: seq<PathEntry>)
  {
    && Laid(x, root, t, c) && Linked(x.st, root, es) && OwnedPath(x.owned, es) && Hints(x.st, es[..|es| - 1])
    && Level(t, d) && Separated(t) && Sorted(Contents(t)) && ShrunkAt(t, Idx(es[..|es| - 1]), c)
  }

  ghost predicate ShrunkAt(t: Tree, p: seq<nat>, c: Caps)
  {
    && Along(t, p) && FilledAround(t, p, c, true) && At(t, p).Node? && Arity(At(t, p)) && KidsFilled(At(t, p), c)
    && |At(t, p).ks| < c.inner && (p != [] ==> |At(t, p).ks| + 1 >= c.inner / 2)
  }

  // Node, sibling and parent as records.
  ghost predicate Family(st: Store, c: Caps, pb: nat, i: nat, b: nat, sb: nat)
  {
    && pb in st && b in st && sb in st && st[pb].InnerRec? && Shape(st[pb]) && Shape(st[b]) && Shape(st[sb])
    && i < |st[pb].kids| && Sibling(i) < |st[pb].kids| && st[pb].kids[i] == b && st[pb].kids[Sibling(i)] == sb
    && st[b].LeafRec? == st[sb].LeafRec? && Size(st[b]) + 1 == Cap(st[b], c) / 2 <= Size(st[sb])
    && b != sb && pb != b && pb != sb
  }

  lemma {:induction false} RecOf(st: Store, b: nat, t: Tree, d: nat)
    requires Rep(st, b, t) && Level(t, d)
    ensures b in st && Shape(st[b]) && st[b].LeafRec? == t.Leaf? && Size(st[b]) == Count(t) && Arity(t)
  {
  }

  lemma {:induction false} ShortFamily(x: Layout, root: nat, t: Tree, t0: Tree, d: nat, c: Caps, es: seq<PathEntry>)
    requires Short(x, root, t, t0, d, c, es)
    ensures var n := |es| - 1; var pb, i, q := es[n - 1].block, es[n - 1].index, Idx(es[..n - 1]);
            && pb in x.st && x.st[pb].InnerRec? && Sibling(i) < |x.st[pb].kids|
            && Family(x.st, c, pb, i, es[n].block, x.st[pb].kids[Sibling(i)])
            && Hint(x.st[pb], es[n - 1])
            && Along(t, q) && Along(t0, q) && Idx(es[..n]) == q + [i] && At(t, q).Node? && |q| < d
            && |At(t, q).cs| == |x.st[pb].kids| && x.st[pb].ks == At(t, q).ks && |At(t, q).ks| >= 1
            && i <= |At(t, q).ks|
            && Rep(x.st, pb, At(t, q)) && BlockAt(x.st, root, q) == pb
            && Foot(x.st, pb, At(t, q)) <= x.blocks <= x.st.Keys
            && (Above(At(t, q).cs[Sibling(i)], c) <==>
                 Size(x.st[x.st[pb].kids[Sibling(i)]]) > Cap(x.st[x.st[pb].kids[Sibling(i)]], c) / 2)
  {
    hide Contents, Sorted, Separated, FilledAround, Fits, Foot, SetLow, Replace, OwnedPath, Linked, BlockAt, Rep,
      Emptied,
      Along, Idx;
    var n := |es| - 1;
    var pb, i, q := es[n - 1].block, es[n - 1].index, Idx(es[..n - 1]);
    ParentPlace(x.st, root, t, es);
    ShortParent(t, t0, q, i, c, d);
    FootStored(x.st, root, t);
    var m, j := At(t, q), Sibling(i);
    assert es[..n][n - 1] == es[n - 1];
    RecOf(x.st, pb, m, d - |q|);
    assert Level(m.cs[i], d - |q| - 1) && Level(m.cs[j], d - |q| - 1) && Filled(m.cs[j], c, false);
    SiblingBlocks(x.st, pb, m, if i == 0 then 0 else i - 1);
    RecOf(x.st, es[n].block, m.cs[i], d - |q| - 1);
    RecOf(x.st, x.st[pb].kids[j], m.cs[j], d - |q| - 1);
  }

  // An emptied leaf is the only case in which a separator above the parent goes stale.
  lemma {:induction false} ShortLow(t: Tree, t0: Tree, q: seq<nat>, i: nat, c: Caps)
    requires CapsOk(c) && ShortAt(t, t0, q + [i], c)
    ensures Low(t, t0, q + [i]) <==> i == 0 && At(t, q + [i]).Leaf? && c.leaf / 2 == 1
  {
    SeparatedAt(t0, q + [i]);
  }

  // ---- the parent rewritten ----

  // The tree u with the parent at q rewritten as s; w also has the separator left of q updated
  // where the short node was an emptied leftmost leaf.
  lemma {:induction false} Refitted(t: Tree, t0: Tree, q: seq<nat>, i: nat, s: Tree, c: Caps, d: nat, low: bool,
                                    u: Tree, w: Tree)
    requires CapsOk(c) && ShortAt(t, t0, q + [i], c) && Level(t, d) && Sorted(Contents(t)) && |q| < d
    requires Along(t, q) && Along(t0, q) && Rebalanced(At(t0, q), At(t, q), i, s, c, d - |q|)
    requires low == (i == 0 && At(t, q + [i]).Leaf? && c.leaf / 2 == 1)
    requires u == Replace(t, q, s) && Along(u, q) && w == if low then SetLow(u, q, FirstKey(s)) else u
    ensures Level(u, d) && Contents(u) == Contents(t)
    ensures Level(w, d) && Separated(w) && Contents(w) == Contents(t) && Sorted(Contents(w))
    ensures Along(w, q) && At(w, q) == s && FilledAround(w, q, c, true)
    ensures CountOk(s, c, q == []) ==> Good(w, d, c)
  {
    hide ShortAt, Level, Separated, Sorted, FilledAround, Filled, CountOk, Contents, At, Along, Replace, SetLow;
    ShortLow(t, t0, q, i, c);
    RefitOk(t, t0, q, i, s, c, d);
    ReplaceLevel(t, q, s, d);
    ReplaceContents(t, q, s);
    ContentsAt(t, q);
  }

  // Nodes above the parent are not touched by writes below it.
  ghost predicate Outside(x: Layout, pb: nat, n: Tree, st': Store)
  {
    forall b :: b in x.st && b !in Foot(x.st, pb, n) ==> b in st' && st'[b] == x.st[b]
  }

  lemma {:induction false} PathAbove(x: Layout, root: nat, t: Tree, es: seq<PathEntry>, k: nat, st': Store)
    requires Rep(x.st, root, t) && Linked(x.st, root, es) && k < |es| && Along(t, Idx(es[..k])) && Hints(x.st, es[..k])
    requires Outside(x, es[k].block, At(t, Idx(es[..k])), st')
    ensures Linked(st', root, es[..k + 1]) && (k > 0 ==> Linked(st', root, es[..k])) && Hints(st', es[..k])
  {
    hide Rep, Foot, Along, At, Idx, Hint;
    forall j | 0 <= j < k
      ensures es[j].block in st' && es[j].block in x.st && st'[es[j].block] == x.st[es[j].block]
    {
      LinkedApart(x.st, root, t, es, j, k);
      assert Link(x.st, es, j);
    }
    LinkedKeep(x.st, st', root, es, k + 1);
    if k > 0 {
      LinkedKeep(x.st, st', root, es, k);
    }
    forall j | 0 <= j < k
      ensures es[..k][j].block in st' && Hint(st'[es[..k][j].block], es[..k][j])
    {
      assert es[..k][j] == es[j];
    }
  }

  // Ready for an update of the separator left of the node us leads to.
  ghost predicate Mended(x: Layout, root: nat, t: Tree, d: nat, c: Caps, us: seq<PathEntry>)
  {
    && Laid(x, root, t, c) && Level(t, d) && Along(t, Idx(us)) && (us != [] ==> Linked(x.st, root, us))
    && OwnedPath(x.owned, us) && Hints(x.st, us)
  }
}
