// Separator updates along a path, and the keys a path remembers.
module TreeKeys {
  import opened TreeModel
  import opened TreeSteps
  import opened TreeStore
  import opened TreeSearch
  import opened TreePath
  import opened TreeLinks
  import opened TreeSplit
  import opened TreeRemove
  import opened TreeRebalance

  // The keys cached in a path entry are those of its node, where the node has them.
  ghost predicate Hint(r: NodeRec, e: PathEntry)
  {
    r.InnerRec? && (0 < e.index <= |r.ks| ==> e.prevKey == r.ks[e.index - 1])
      && (e.index < |r.ks| ==> e.nextKey == r.ks[e.index])
  }

  ghost predicate Hints(st: Store, us: seq<PathEntry>)
  {
    forall k :: 0 <= k < |us| ==> us[k].block in st && Hint(st[us[k].block], us[k])
  }

  ghost predicate OwnedPath(owned: set<nat>, es: seq<PathEntry>)
  {
    forall k :: 0 <= k < |es| ==> es[k].block in owned
  }

  // Only key values inside internal nodes differ.
  ghost predicate SameLinks(st: Store, st': Store)
  {
    && st.Keys == st'.Keys
    && forall b :: b in st ==>
         if st[b].LeafRec? then st'[b] == st[b]
           else st'[b].InnerRec? && st'[b].kids == st[b].kids && |st'[b].ks| == |st[b].ks|
  }

  // Paths that name the same places.
  ghost predicate SamePath(es: seq<PathEntry>, fs: seq<PathEntry>)
  {
    |es| == |fs| && forall k :: 0 <= k < |es| ==> fs[k].block == es[k].block && fs[k].index == es[k].index
  }

  lemma {:induction false} SamePathIdx(es: seq<PathEntry>, fs: seq<PathEntry>, k: nat)
    requires SamePath(es, fs) && k <= |es|
    ensures Idx(es[..k]) == Idx(fs[..k])
    decreases k
  {
    if k > 0 {
      SamePathIdx(es, fs, k - 1);
      assert es[..k][..k - 1] == es[..k - 1] && fs[..k][..k - 1] == fs[..k - 1];
    }
  }

  lemma {:induction false} SameLinked(st: Store, st': Store, root: nat, es: seq<PathEntry>, fs: seq<PathEntry>)
    requires Linked(st, root, es) && SameLinks(st, st') && SamePath(es, fs)
    ensures Linked(st', root, fs)
  {
    forall k | 0 <= k < |fs| - 1
      ensures Link(st', fs, k)
    {
      assert Link(st, es, k);
    }
  }

  // The walk's cached keys are right.
  lemma {:induction false} WayHints(st: Store, root: nat, t: Tree, es: seq<PathEntry>)
    requires Rep(st, root, t) && Separated(t) && Sorted(Contents(t)) && Way(st, root, t, es)
    ensures Hints(st, es)
    decreases |es|
  {
    hide Rep, Separated, Sorted, Contents, Way, Idx;
    if es != [] {
      var up, e := es[..|es| - 1], es[|es| - 1];
      WayEnd(st, root, t, up, e, es);
      WayHint(st, root, t, Idx(up), e);
      WayHints(st, root, t, up);
      forall k | 0 <= k < |es|
        ensures es[k].block in st && Hint(st[es[k].block], es[k])
      {
        assert k < |up| ==> up[k] == es[k];
      }
    }
  }

  lemma {:induction false} WayHint(st: Store, root: nat, t: Tree, p: seq<nat>, e: PathEntry)
    requires Rep(st, root, t) && Separated(t) && Sorted(Contents(t)) && Along(t, p + [e.index])
             && InnerKeys(t, p + [e.index], e)
    requires e.block == BlockAt(st, root, p)
    ensures e.block in st && Hint(st[e.block], e)
  {
    hide Rep, Separated, Sorted, Contents, After, Before, Along, At, BlockAt, AllZero;
    AtSnoc(t, p, e.index);
    BlockAtSnoc(st, root, t, p, e.index);
    StepDown(t, p, e.index);
    AllZeroSnoc(p, e.index);
  }

  // Writing the separator left of position Idx(us); j - 1 is its level.
  lemma {:induction false} KeyWritten(x: Layout, root: nat, t: Tree, d: nat, c: Caps, us: seq<PathEntry>, j: nat,
                                      k: nat, x': Layout)
    requires Laid(x, root, t, c) && Level(t, d) && Along(t, Idx(us)) && 0 < j <= |us| && us != []
             && Linked(x.st, root, us)
    requires AllZero(Idx(us)[j..]) && us[j - 1].index > 0
    requires var b := us[j - 1].block;
             && b in x.st && x.st[b].InnerRec? && us[j - 1].index <= |x.st[b].ks|
             && x' == x.(st := x.st[b := InnerRec(x.st[b].ks[us[j - 1].index - 1 := k], x.st[b].kids)])
    ensures Laid(x', root, SetLow(t, Idx(us), k), c) && SameLinks(x.st, x'.st)
  {
    var p, b, i := Idx(us), us[j - 1].block, us[j - 1].index;
    IdxSlice(us, j - 1);
    IdxSlice(us, j);
    assert us[..j][..j - 1] == us[..j - 1];
    assert p[j - 1] == i;
    assert p[j - 1 + 1..] == p[j..];
    SetLowAt(t, p, k, j - 1);
    LinkedAt(x.st, root, t, us, j - 1);
    var q := p[..j - 1];
    RepAt(x.st, root, t, q);
    ReplaceLevel(t, q, At(t, q), d);
    KeyRep(x, root, t, c, q, b, i, k, x');
  }

  lemma {:induction false} KeyRep(x: Layout, root: nat, t: Tree, c: Caps, q: seq<nat>, b: nat, i: nat, k: nat,
                                  x': Layout)
    requires Laid(x, root, t, c) && Along(t, q) && b == BlockAt(x.st, root, q) && At(t, q).Node?
             && 0 < i <= |At(t, q).ks|
    requires b in x.st && x.st[b].InnerRec? && i <= |x.st[b].ks|
    requires x' == x.(st := x.st[b := InnerRec(x.st[b].ks[i - 1 := k], x.st[b].kids)])
    ensures Laid(x', root, Replace(t, q, Node(At(t, q).ks[i - 1 := k], At(t, q).cs)), c)
  {
    var n := At(t, q);
    RepAt(x.st, root, t, q);
    FootStored(x.st, root, t);
    KidsFrame(x.st, x'.st, x.st[b].kids, n.cs);
    var s, F := Node(n.ks[i - 1 := k], n.cs), Foot(x.st, b, n);
    assert Foot(x'.st, b, s) == F;
    ParentLaid(x, x', root, t, c, q, b, s, F, F);
  }

  // The node whose key is to be written.
  lemma {:induction false} KeyNode(x: Layout, root: nat, t: Tree, d: nat, c: Caps, us: seq<PathEntry>, j: nat)
    requires Laid(x, root, t, c) && Level(t, d) && Along(t, Idx(us)) && 0 < j <= |us| && Linked(x.st, root, us)
    ensures var b := us[j - 1].block; b in x.st && x.st[b].InnerRec? && us[j - 1].index <= |x.st[b].ks|
  {
    AlongSplit(t, Idx(us), j);
    IdxSlice(us, j - 1);
    IdxSlice(us, j);
    assert us[..j][..j - 1] == us[..j - 1];
    AtSnoc(t, Idx(us[..j - 1]), us[j - 1].index);
    LinkedAt(x.st, root, t, us, j - 1);
    RepAt(x.st, root, t, Idx(us[..j - 1]));
    ReplaceLevel(t, Idx(us[..j - 1]), At(t, Idx(us[..j - 1])), d);
  }

  lemma {:induction false} HintsKept(x: Layout, root: nat, t: Tree, c: Caps, us: seq<PathEntry>, j: nat, k: nat,
                                     st': Store, vs: seq<PathEntry>)
    requires Laid(x, root, t, c) && Along(t, Idx(us)) && 0 < j <= |us| && Linked(x.st, root, us) && Hints(x.st, us)
             && us[j - 1].index > 0
    requires var b := us[j - 1].block;
             && b in x.st && x.st[b].InnerRec? && us[j - 1].index <= |x.st[b].ks|
             && st' == x.st[b := InnerRec(x.st[b].ks[us[j - 1].index - 1 := k], x.st[b].kids)]
    requires vs == us[j - 1 := us[j - 1].(prevKey := k)]
    ensures Hints(st', vs)
  {
    forall i | 0 <= i < |us|
      ensures vs[i].block in st' && Hint(st'[vs[i].block], vs[i])
    {
      if i != j - 1 {
        AlongSplit(t, Idx(us), if i < j - 1 then j - 1 else i);
        IdxSlice(us, if i < j - 1 then j - 1 else i);
        LinkedDistinct(x.st, root, t, us, if i < j - 1 then j - 1 else i);
      }
    }
  }

  lemma SameSelf(st: Store, us: seq<PathEntry>)
    ensures SameLinks(st, st) && SamePath(us, us)
  {
  }

  // A path whose upper part was replaced after a key update.
  lemma {:induction false} PathRejoin(st: Store, x: Layout, root: nat, top: seq<PathEntry>, us: seq<PathEntry>,
                                      vs: seq<PathEntry>)
    requires top != [] && us == top[..|top| - 1] && SamePath(us, vs)
    requires SameLinks(st, x.st) && Linked(st, root, top) && OwnedPath(x.owned, top) && Hints(x.st, vs)
    ensures var fs := vs + [top[|top| - 1]];
            Linked(x.st, root, fs) && OwnedPath(x.owned, fs) && Hints(x.st, fs[..|fs| - 1])
              && Idx(fs[..|fs| - 1]) == Idx(us)
  {
    hide SameLinks, Hints, Idx;
    var fs := vs + [top[|top| - 1]];
    assert fs[..|fs| - 1] == vs;
    forall k | 0 <= k < |top|
      ensures fs[k].block == top[k].block && fs[k].index == top[k].index
    {
      assert k < |us| ==> us[k] == top[k] && fs[k] == vs[k];
    }
    SameLinked(st, x.st, root, top, fs);
    SamePathIdx(us, vs, |us|);
    assert us[..|us|] == us && vs[..|us|] == vs;
  }
}
