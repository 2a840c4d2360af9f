// Searching and iterating a B+ tree by path (block_tree_walk, block_tree_path_next).
module TreeWalk {
  import opened TreeModel
  import opened TreeStore
  import opened TreeSearch
  import opened TreePath

  // The child of an internal node to follow: the keys to its left are at most key, the rest greater.
  ghost predicate Branch(ks: seq<nat>, i: nat, key: nat)
  {
    var v := InnerRec(ks, []);
    && i <= |ks|
    && (forall k :: 0 <= k < i ==> KeyAt(v, k) != 0 && KeyAt(v, k) <= key)
    && (KeyAt(v, i) == 0 || KeyAt(v, i) > key)
  }

  // First index whose key stops the search (block_tree_node_find_block).
  method FindBlock(s: TreeState, b: nat, key: nat, keyIsMax: bool) returns (i: nat, ghost j: nat)
    requires s.Readable() && b in s.store
    ensures if s.V()[b].LeafRec? then Slot(s.V()[b].es, j, i, key, keyIsMax) else i == j && Branch(s.V()[b].ks, i, key)
  {
    var r := s.store[b];
    var leaf := r.LeafRec?;
    ghost var v := s.V()[b];
    var curr := 0;
    i := 0;
    while i < Cap(r, s.caps) + 1
      invariant i <= Size(v)
      invariant forall k :: 0 <= k < i ==> KeyAt(v, k) != 0 && (if leaf then KeyAt(v, k) < key else KeyAt(v, k) <= key)
      invariant curr == 0
    {
      curr := s.Key(b, i);
      if curr == 0 || (if leaf then key <= curr else key <= curr - 1) {
        break;
      }
      curr := 0;
      i := i + 1;
    }
    j := i;
    if keyIsMax && leaf && i > 0 && (curr == 0 || curr > key) {
      i := i - 1;
    }
    if leaf {
      assert v == LeafRec(v.es);
    } else {
      assert forall k: nat :: KeyAt(InnerRec(v.ks, []), k) == KeyAt(v, k);
    }
  }

  // A path of full depth that a search for key ends with.
  ghost predicate Walked(st: Store, root: nat, t: Tree, d: nat, path: Path, key: nat, keyIsMax: bool)
  {
    && FullPath(st, root, t, path) && |path.entries| == d
    && Found(Contents(t), Pos(t, path), PathKey(path), path.data, key, keyIsMax)
    && (!keyIsMax ==> path.entries[d - 1].prevKey <= key)
  }

  // block_tree_walk
  method Walk(s: TreeState, key: nat, keyIsMax: bool, ghost t: Tree, ghost d: nat) returns (path: Path)
    requires s.Holds(t, d)
    ensures s.root == 0 ==> path == Path([], 0)
    ensures s.root != 0 ==> Walked(s.V(), s.root, t, d, path, key, keyIsMax)
  {
    hide *;
    if s.root == 0 {
      return Path([], 0);
    }
    var es: seq<PathEntry> := [];
    var b := s.root;
    var prev: nat, next: nat := 0, 0;
    WalkStart(s, t, d, key);
    while true
      invariant Walking(s.V(), s.root, t, d, es, b, prev, next, key)
      decreases d - |es|
    {
      WalkRep(s.V(), s.root, t, d, es, b, prev, next, key);
      var i, j := FindBlock(s, b, key, keyIsMax);
      var curr := s.Key(b, i);
      var next' := if curr != 0 then curr else next;
      var prev' := if i > 0 then s.Key(b, i - 1) else prev;
      var e := PathEntry(b, i, prev', next');
      if s.IsLeaf(b) {
        path := Path(es + [e], s.Data(b, i));
        WalkLeaf(s.V(), s.root, t, d, es, prev, next, e, j, key, keyIsMax, path);
        return;
      }
      WalkInner(s.V(), s.root, t, d, es, prev, next, e, key);
      es, b, prev, next := es + [e], s.Child(b, i), prev', next';
    }
  }

  lemma {:induction false} WalkStart(s: TreeState, t: Tree, d: nat, key: nat)
    requires s.Holds(t, d) && s.root != 0
    ensures s.Readable() && Walking(s.V(), s.root, t, d, [], s.root, 0, 0, key)
  {
  }

  // State of a walk on its way down.
  ghost predicate Walking(st: Store, root: nat, t: Tree, d: nat, es: seq<PathEntry>, b: nat, prev: nat, next: nat,
                          key: nat)
  {
    && Rep(st, root, t) && Level(t, d) && Separated(t) && Sorted(Contents(t))
    && Way(st, root, t, es) && Along(t, Idx(es)) && |es| < d
    && b == BlockAt(st, root, Idx(es)) && Bracket(t, Idx(es), key)
    && next == Head(After(t, Idx(es)))
    && prev == if AllZero(Idx(es)) then 0 else Head(Contents(At(t, Idx(es))))
  }

  lemma {:induction false} WalkRep(st: Store, root: nat, t: Tree, d: nat, es: seq<PathEntry>, b: nat, prev: nat,
                                   next: nat, key: nat)
    requires Walking(st, root, t, d, es, b, prev, next, key)
    ensures b in st && |es| < d && (st[b].LeafRec? <==> |es| + 1 == d)
    ensures Rep(st, b, At(t, Idx(es))) && Level(At(t, Idx(es)), d - |es|)
    ensures st[b].LeafRec? ==> At(t, Idx(es)) == Leaf(st[b].es)
  {
    RepAt(st, root, t, Idx(es));
    ReplaceLevel(t, Idx(es), At(t, Idx(es)), d);
  }

  lemma {:induction false} WalkInner(st: Store, root: nat, t: Tree, d: nat, es: seq<PathEntry>, prev: nat, next: nat,
                                     e: PathEntry, key: nat)
    requires Walking(st, root, t, d, es, e.block, prev, next, key) && e.block in st && st[e.block].InnerRec?
    requires var v := st[e.block];
             && Branch(v.ks, e.index, key)
             && e.nextKey == (if KeyAt(v, e.index) != 0 then KeyAt(v, e.index) else next)
             && e.prevKey == (if e.index > 0 then KeyAt(v, e.index - 1) else prev)
    ensures |es| + 1 < d && |st[e.block].kids| > e.index
    ensures Walking(st, root, t, d, es + [e], st[e.block].kids[e.index], e.prevKey, e.nextKey, key)
  {
    var p, i := Idx(es), e.index;
    WalkRep(st, root, t, d, es, e.block, prev, next, key);
    WalkBranch(t, p, i, key);
    BlockAtSnoc(st, root, t, p, i);
    AllZeroSnoc(p, i);
    AtSnoc(t, p, i);
    hide Rep, Level, Separated, Sorted, Bracket, Contents, Before, After;
    WaySnoc(st, root, t, es, e);
  }

  lemma {:induction false} WalkBranch(t: Tree, p: seq<nat>, i: nat, key: nat)
    requires Separated(t) && Sorted(Contents(t)) && Along(t, p) && At(t, p).Node? && Bracket(t, p, key)
             && Branch(At(t, p).ks, i, key)
    ensures i < |At(t, p).cs| && Along(t, p + [i]) && Bracket(t, p + [i], key)
    ensures var v := InnerRec(At(t, p).ks, []);
            && Head(After(t, p + [i])) == (if KeyAt(v, i) != 0 then KeyAt(v, i) else Head(After(t, p)))
            && Head(Contents(At(t, p).cs[i])) == (if i > 0 then KeyAt(v, i - 1) else Head(Contents(At(t, p))))
  {
    SeparatedAt(t, p);
    hide Separated, Sorted, Bracket;
    StepDown(t, p, 0);
    StepDown(t, p, i);
    assert i > 0 ==> KeyAt(InnerRec(At(t, p).ks, []), i - 1) == At(t, p).ks[i - 1];
    StepBracket(t, p, i, key);
  }

  lemma {:induction false} WalkLeaf(st: Store, root: nat, t: Tree, d: nat, es: seq<PathEntry>, prev: nat, next: nat,
                                    e: PathEntry, j: nat, key: nat, keyIsMax: bool, path: Path)
    requires Walking(st, root, t, d, es, e.block, prev, next, key) && e.block in st && st[e.block].LeafRec?
    requires var v := st[e.block];
             && Slot(v.es, j, e.index, key, keyIsMax)
             && e.nextKey == (if KeyAt(v, e.index) != 0 then KeyAt(v, e.index) else next)
             && e.prevKey == (if e.index > 0 then KeyAt(v, e.index - 1) else prev)
             && path == Path(es + [e], if e.index < |v.es| then v.es[e.index].data else 0)
    ensures Walked(st, root, t, d, path, key, keyIsMax) == true
  {
    hide *;
    WalkRep(st, root, t, d, es, e.block, prev, next, key);
    WalkFacts(st, root, t, d, es, e.block, prev, next, key);
    LeafFound(t, Idx(es), e, prev, next, path.data, j, key, keyIsMax);
    PathDone(st, root, t, d, es, e, path, key, keyIsMax);
  }

  lemma WalkFacts(st: Store, root: nat, t: Tree, d: nat, es: seq<PathEntry>, b: nat, prev: nat, next: nat, key: nat)
    requires Walking(st, root, t, d, es, b, prev, next, key)
    ensures Separated(t) && Sorted(Contents(t)) && Way(st, root, t, es) && Along(t, Idx(es))
            && b == BlockAt(st, root, Idx(es))
    ensures Bracket(t, Idx(es), key) && next == Head(After(t, Idx(es)))
    ensures prev == if AllZero(Idx(es)) then 0 else Head(Contents(At(t, Idx(es))))
  {
  }

  lemma {:induction false} PathDone(st: Store, root: nat, t: Tree, d: nat, es: seq<PathEntry>, e: PathEntry,
                                    path: Path, key: nat, keyIsMax: bool)
    requires Way(st, root, t, es) && Along(t, Idx(es)) && e.block == BlockAt(st, root, Idx(es)) && |es| + 1 == d
    requires path.entries == es + [e] && LeafKeys(t, Idx(es), e, path.data) && (!keyIsMax ==> e.prevKey <= key)
    requires Found(Contents(t), |Before(t, Idx(es))| + e.index, e.nextKey, path.data, key, keyIsMax)
    ensures Walked(st, root, t, d, path, key, keyIsMax)
  {
    hide Along, At, Before, Contents, BlockAt, Found, Rep, Idx, Way;
    assert path.entries[..|es|] == es;
    assert FullPath(st, root, t, path) && LeafAt(path) == Idx(es);
    assert Pos(t, path) == |Before(t, Idx(es))| + e.index && PathKey(path) == e.nextKey;
  }

  lemma {:induction false} LeafFound(t: Tree, p: seq<nat>, e: PathEntry, prev: nat, next: nat, data: nat, j: nat,
                                     key: nat, keyIsMax: bool)
    requires Separated(t) && Sorted(Contents(t)) && Along(t, p) && Bracket(t, p, key) && At(t, p).Leaf?
    requires next == Head(After(t, p)) && prev == if AllZero(p) then 0 else Head(Contents(At(t, p)))
    requires var v := LeafRec(At(t, p).es);
             && Slot(v.es, j, e.index, key, keyIsMax)
             && e.nextKey == (if KeyAt(v, e.index) != 0 then KeyAt(v, e.index) else next)
             && e.prevKey == (if e.index > 0 then KeyAt(v, e.index - 1) else prev)
             && data == if e.index < |v.es| then v.es[e.index].data else 0
    ensures LeafKeys(t, p, e, data) && Found(Contents(t), |Before(t, p)| + e.index, e.nextKey, data, key, keyIsMax)
    ensures !keyIsMax ==> e.prevKey <= key
  {
    hide *;
    NodeContents(At(t, p));
    LeafEnd(t, p, e, data, j, key, keyIsMax);
    LeafSpot(t, p, j, key);
    SpotFound(Contents(t), Before(t, p), At(t, p).es, After(t, p), j, e.index, e.nextKey, data, key, keyIsMax);
    if !keyIsMax {
      LeafPrev(t, p, j, e, data, key);
    }
  }

  lemma {:induction false} LeafPrev(t: Tree, p: seq<nat>, j: nat, e: PathEntry, data: nat, key: nat)
    requires Along(t, p) && At(t, p).Leaf? && LeafSlot(t, p, j, key) && e.index == j && Bracket(t, p, key)
             && LeafKeys(t, p, e, data)
    ensures e.prevKey <= key
  {
  }

  // ---- next ----

  // Position just past the subtree at p.
  ghost function End(t: Tree, p: seq<nat>): nat
    requires Along(t, p)
  {
    |Before(t, p)| + |Contents(At(t, p))|
  }

  // Past the last child is past the node; past another child is the start of the next one.
  lemma {:induction false} EndStep(t: Tree, p: seq<nat>, i: nat)
    requires Separated(t) && Along(t, p) && At(t, p).Node? && i < |At(t, p).cs|
    ensures Along(t, p + [i])
    ensures i + 1 == |At(t, p).cs| ==> End(t, p + [i]) == End(t, p) && After(t, p + [i]) == After(t, p)
    ensures i + 1 < |At(t, p).cs| ==> Along(t, p + [i + 1]) && |Before(t, p + [i + 1])| == End(t, p + [i])
    ensures i == 0 ==> |Before(t, p + [i])| == |Before(t, p)|
  {
    hide Separated, Contents, Flat, Before, After, At, Along;
    var cs := At(t, p).cs;
    AtSnoc(t, p, i);
    FlatSplit(cs, i);
    EmptyFlat();
    NodeContents(At(t, p));
    assert i == 0 ==> cs[..i] == [];
    if i + 1 < |cs| {
      AtSnoc(t, p, i + 1);
      FlatAppend(cs[..i], [cs[i]]);
      OneFlat(cs[i]);
      assert cs[..i + 1] == cs[..i] + [cs[i]];
    } else {
      assert cs[i + 1..] == [];
    }
  }

  // Way down to the node in block b, every index after the turn being 0.
  ghost predicate Turning(st: Store, root: nat, t: Tree, d: nat, es: seq<PathEntry>, b: nat, prev: nat, start: nat)
  {
    && Way(st, root, t, es) && Along(t, Idx(es)) && 0 < |es| < d
    && b == BlockAt(st, root, Idx(es)) && |Before(t, Idx(es))| == start
    && !AllZero(Idx(es)) && prev == Head(Contents(At(t, Idx(es))))
  }

  lemma {:induction false} ChildBlock(st: Store, root: nat, t: Tree, p: seq<nat>, i: nat)
    requires Rep(st, root, t) && 0 !in st && Along(t, p) && At(t, p).Node? && i < |At(t, p).cs|
    ensures var y := BlockAt(st, root, p);
            y in st && st[y].InnerRec? && |st[y].kids| == |At(t, p).cs|
              && st[y].kids[i] == BlockAt(st, root, p + [i]) != 0
  {
    AtSnoc(t, p, i);
    BlockAtSnoc(st, root, t, p, i);
    RepAt(st, root, t, p + [i]);
  }

  // es[..k] leads to a node with entries to its right; the node ends at position end.
  ghost predicate Climbing(st: Store, root: nat, t: Tree, es: seq<PathEntry>, k: nat, end: nat)
  {
    && 0 < k <= |es| && Way(st, root, t, es[..k]) && Along(t, Idx(es[..k])) && After(t, Idx(es[..k])) != []
    && End(t, Idx(es[..k])) == end
  }

  // The node and child reached at one level of the climb.
  lemma {:induction false} ClimbPlace(st: Store, root: nat, t: Tree, es: seq<PathEntry>, k: nat, end: nat)
    requires Rep(st, root, t) && Separated(t) && 0 !in st && Climbing(st, root, t, es, k, end)
    ensures Way(st, root, t, es[..k - 1]) && Along(t, Idx(es[..k - 1]))
            && Idx(es[..k]) == Idx(es[..k - 1]) + [es[k - 1].index]
    ensures var e, n := es[k - 1], At(t, Idx(es[..k - 1]));
            && e.block in st && st[e.block].InnerRec? && n.Node? && e.index < |n.cs|
            && st[e.block].ks == n.ks && |st[e.block].kids| == |n.cs| == |n.ks| + 1
            && e.block == BlockAt(st, root, Idx(es[..k - 1]))
            && (e.index + 1 < |n.cs| ==>
                 st[e.block].kids[e.index + 1] == BlockAt(st, root, Idx(es[..k - 1]) + [e.index + 1]) != 0)
    ensures Head(After(t, Idx(es[..k - 1]))) == if k > 1 then es[k - 2].nextKey else 0
  {
    assert es[..k][..k - 1] == es[..k - 1];
    var p, e := Idx(es[..k - 1]), es[k - 1];
    AtSnoc(t, p, e.index);
    BlockAtSnoc(st, root, t, p, e.index);
    SeparatedAt(t, p);
    if e.index + 1 < |At(t, p).cs| {
      ChildBlock(st, root, t, p, e.index + 1);
    }
    if k > 1 {
      assert es[..k - 1][k - 2] == es[k - 2];
    }
  }

  lemma {:induction false} ClimbStep(st: Store, root: nat, t: Tree, es: seq<PathEntry>, k: nat, end: nat)
    requires Rep(st, root, t) && Separated(t) && 0 !in st && Climbing(st, root, t, es, k, end)
    ensures k > 0 && k <= |es|
    ensures var b, i := es[k - 1].block, es[k - 1].index;
            && b in st && st[b].InnerRec?
            && (i + 1 < |st[b].kids| ==> st[b].kids[i + 1] != 0)
            && (i + 1 >= |st[b].kids| ==> Climbing(st, root, t, es, k - 1, end))
  {
    ClimbPlace(st, root, t, es, k, end);
    hide Rep, Separated, Way;
    EndStep(t, Idx(es[..k - 1]), es[k - 1].index);
    if k == 1 {
      assert es[..0] == [];
    }
  }

  // Moving from child e.index to the next child of the same node.
  lemma {:induction false} TurnStep(st: Store, root: nat, t: Tree, d: nat, es: seq<PathEntry>, e: PathEntry, i: nat,
                                    up: nat)
    requires Rep(st, root, t) && Level(t, d) && Separated(t) && Sorted(Contents(t))
    requires Way(st, root, t, es) && Along(t, Idx(es)) && e.block == BlockAt(st, root, Idx(es))
    requires At(t, Idx(es)).Node? && e.index == i + 1 < |At(t, Idx(es)).cs|
    requires up == Head(After(t, Idx(es)))
    requires var v := InnerRec(At(t, Idx(es)).ks, []);
             && e.prevKey == KeyAt(v, i)
             && e.nextKey == if KeyAt(v, i + 1) != 0 then KeyAt(v, i + 1) else up
    ensures |es| + 1 < d && Along(t, Idx(es) + [i])
    ensures Turning(st, root, t, d, es + [e], BlockAt(st, root, Idx(es) + [e.index]), e.prevKey, End(t, Idx(es) + [i]))
  {
    var p := Idx(es);
    StepDown(t, p, i + 1);
    EndStep(t, p, i);
    AtSnoc(t, p, i + 1);
    AllZeroSnoc(p, i + 1);
    WaySnoc(st, root, t, es, e);
    ReplaceLevel(t, p + [i + 1], At(t, p + [i + 1]), d);
    hide Rep, Level, Separated, Sorted, Contents, Before, After, At, Along, BlockAt;
  }

  lemma {:induction false} DescendStep(st: Store, root: nat, t: Tree, d: nat, es: seq<PathEntry>, e: PathEntry,
                                       start: nat)
    requires Rep(st, root, t) && Level(t, d) && Separated(t) && Sorted(Contents(t))
    requires Turning(st, root, t, d, es, e.block, e.prevKey, start) && Keyed(t)
    requires e.block in st && st[e.block].InnerRec? && |es| + 1 < d && e.index == 0
             && e.nextKey == KeyAt(st[e.block], 0)
    ensures |st[e.block].kids| > 0
    ensures Turning(st, root, t, d, es + [e], st[e.block].kids[0], e.prevKey, start)
  {
    var p := Idx(es);
    RepAt(st, root, t, p);
    ReplaceLevel(t, p, At(t, p), d);
    StepDown(t, p, 0);
    KeyedAt(t, p);
    EndStep(t, p, 0);
    AtSnoc(t, p, 0);
    AllZeroSnoc(p, 0);
    BlockAtSnoc(st, root, t, p, 0);
    WaySnoc(st, root, t, es, e);
  }

  // The first entry of the leaf after the turn.
  lemma {:induction false} DescendLeaf(st: Store, root: nat, t: Tree, d: nat, es: seq<PathEntry>, e: PathEntry,
                                       start: nat, path: Path)
    requires Rep(st, root, t) && Level(t, d) && Separated(t) && Sorted(Contents(t))
    requires Turning(st, root, t, d, es, e.block, e.prevKey, start) && |es| + 1 == d && e.index == 0
    requires e.block in st && st[e.block].LeafRec? && e.nextKey == KeyAt(st[e.block], 0)
    requires path == Path(es + [e], if |st[e.block].es| > 0 then st[e.block].es[0].data else 0)
    ensures Lands(st, root, t, d, path, start)
  {
    var p := Idx(es);
    RepAt(st, root, t, p);
    ReplaceLevel(t, p, At(t, p), d);
    SeparatedAt(t, p);
    LeafPositive(t, p);
    var leaf := At(t, p);
    assert leaf.Leaf? && leaf.es == st[e.block].es && leaf.es != [] && leaf.es[0..] == leaf.es;
    hide Rep, Level, Separated, Sorted, Contents;
    assert LeafKeys(t, p, e, path.data);
    assert path.entries[..|es|] == es;
  }

  // The entry after the current one in the same leaf, or the end.
  lemma {:induction false} NextInLeaf(st: Store, root: nat, t: Tree, path: Path, r: Path)
    requires FullPath(st, root, t, path) && Sorted(Contents(t))
    requires var n := |path.entries| - 1; var e := path.entries[n]; var es := At(t, LeafAt(path)).es;
             && e.index < |es|
             && (e.index + 1 < |es| || After(t, LeafAt(path)) == [])
             && r.entries == path.entries[..n] + [PathEntry(e.block, e.index + 1, es[e.index].key,
                KeyAt(LeafRec(es), e.index + 1))]
             && r.data == if e.index + 1 < |es| then es[e.index + 1].data else 0
    ensures FullPath(st, root, t, r) && Pos(t, r) == Pos(t, path) + 1
    ensures PathKey(r) != 0 ==> r.data > 0
  {
    var n := |path.entries| - 1;
    var es := At(t, LeafAt(path)).es;
    assert r.entries[..n] == path.entries[..n];
    LeafPositive(t, LeafAt(path));
    var i := path.entries[n].index + 1;
    assert i == |es| ==> es[i..] + After(t, LeafAt(path)) == [];
  }

  // What the last two entries of a path say about the leaf it stands in.
  lemma {:induction false} PathTail(st: Store, root: nat, t: Tree, path: Path)
    requires FullPath(st, root, t, path) && Sorted(Contents(t)) && PathKey(path) != 0
    ensures path.entries != [] && Along(t, LeafAt(path)) && At(t, LeafAt(path)).Leaf?
    ensures var n := |path.entries| - 1; var e := path.entries[n]; var es := At(t, LeafAt(path)).es;
            var a := After(t, LeafAt(path));
            && (e.index < |es| || a != [])
            && (path.data > 0 <==> e.index < |es|)
            && (n > 0 ==> path.entries[n - 1].nextKey == Head(a))
            && (n == 0 ==> a == [])
            && (Head(a) == 0 <==> a == [])
            && (forall k :: 0 <= k < |es| ==> es[k].key > 0)
  {
    var q := LeafAt(path);
    var n := |path.entries| - 1;
    LeafPositive(t, q);
    ContentsAt(t, q);
    var a := After(t, q);
    if a != [] {
      assert Contents(t)[End(t, q)] == a[0];
    }
    if n > 0 {
      assert path.entries[..n][n - 1] == path.entries[n - 1];
    }
  }

  // A path that stands at pos, on an entry unless pos is the end.
  ghost predicate Lands(st: Store, root: nat, t: Tree, d: nat, path: Path, pos: nat)
  {
    FullPath(st, root, t, path) && |path.entries| == d && Pos(t, path) == pos && (PathKey(path) != 0 ==> path.data > 0)
  }

  // block_tree_path_next
  method Next(s: TreeState, path: Path, ghost t: Tree, ghost d: nat) returns (r: Path)
    requires s.Holds(t, d) && s.root != 0 && Keyed(t)
    requires FullPath(s.V(), s.root, t, path) && |path.entries| == d && PathKey(path) != 0
    ensures Lands(s.V(), s.root, t, d, r, Pos(t, path) + if path.data > 0 then 1 else 0)
  {
    NextStart(s, path, t, d);
    PathTail(s.V(), s.root, t, path);
    hide *;
    var es := path.entries;
    var n := |es| - 1;
    var e := es[n];
    var parentNext := if n > 0 then es[n - 1].nextKey else 0;
    var prev := s.Key(e.block, e.index);
    var next := s.Key(e.block, e.index + 1);
    if next != 0 || parentNext == 0 {
      r := Path(es[..n] + [PathEntry(e.block, e.index + 1, prev, next)], s.Data(e.block, e.index + 1));
      NextHere(s.V(), s.root, t, d, path, r, parentNext);
      return;
    }
    NextOver(s.V(), s.root, t, path, parentNext);
    r := NextLeaf(s, path, t, d);
  }

  lemma {:induction false} NextStart(s: TreeState, path: Path, t: Tree, d: nat)
    requires s.Holds(t, d) && s.root != 0 && FullPath(s.V(), s.root, t, path) && |path.entries| == d
    ensures s.Readable() && Rep(s.V(), s.root, t) && Sorted(Contents(t)) && d > 0
    ensures var b := path.entries[d - 1].block; b in s.V() && s.IsLeaf(b) && s.V()[b] == LeafRec(At(t, LeafAt(path)).es)
  {
    RepAt(s.V(), s.root, t, LeafAt(path));
  }

  lemma {:induction false} NextHere(st: Store, root: nat, t: Tree, d: nat, path: Path, r: Path, parentNext: nat)
    requires FullPath(st, root, t, path) && Sorted(Contents(t)) && PathKey(path) != 0 && |path.entries| == d
    requires var n := |path.entries| - 1; var e := path.entries[n]; var v := LeafRec(At(t, LeafAt(path)).es);
             && (KeyAt(v, e.index + 1) != 0 || parentNext == 0)
             && parentNext == (if n > 0 then path.entries[n - 1].nextKey else 0)
             && r.entries == path.entries[..n] + [PathEntry(e.block, e.index + 1, KeyAt(v, e.index),
                KeyAt(v, e.index + 1))]
             && r.data == if e.index + 1 < |v.es| then v.es[e.index + 1].data else 0
    ensures Lands(st, root, t, d, r, Pos(t, path) + if path.data > 0 then 1 else 0)
  {
    PathTail(st, root, t, path);
    hide Sorted, FullPath, LeafKeys, After, Contents;
    NextInLeaf(st, root, t, path, r);
  }

  lemma {:induction false} NextOver(st: Store, root: nat, t: Tree, path: Path, parentNext: nat)
    requires FullPath(st, root, t, path) && Sorted(Contents(t)) && PathKey(path) != 0 && parentNext != 0
    requires var n := |path.entries| - 1; var e := path.entries[n]; var v := LeafRec(At(t, LeafAt(path)).es);
             KeyAt(v, e.index + 1) == 0 && parentNext == (if n > 0 then path.entries[n - 1].nextKey else 0)
    ensures |path.entries| > 1 && After(t, LeafAt(path)) != []
    ensures End(t, LeafAt(path)) == Pos(t, path) + if path.data > 0 then 1 else 0
  {
    PathTail(st, root, t, path);
  }

  // The first entry of the leaf after the one the path stands in.
  method NextLeaf(s: TreeState, path: Path, ghost t: Tree, ghost d: nat) returns (r: Path)
    requires s.Holds(t, d) && s.root != 0 && Keyed(t)
    requires FullPath(s.V(), s.root, t, path) && |path.entries| == d > 1 && After(t, LeafAt(path)) != []
    ensures Lands(s.V(), s.root, t, d, r, End(t, LeafAt(path)))
  {
    ghost var end := End(t, LeafAt(path));
    var es := path.entries[..|path.entries| - 1];
    ClimbStart(s, path, t, d, es, end);
    hide *;
    var k := Climb(s, es, end, t, d);
    var b, i := es[k - 1].block, es[k - 1].index;
    var parentNext := if k > 1 then es[k - 2].nextKey else 0;
    var prev, next := s.Key(b, i), s.Key(b, i + 1);
    var turn := PathEntry(b, i + 1, prev, if next != 0 then next else parentNext);
    ClimbTurn(s.V(), s.root, t, d, es, k, turn, end);
    r := Descend(s, es[..k - 1] + [turn], s.Child(b, i + 1), end, t, d);
  }

  lemma {:induction false} ClimbStart(s: TreeState, path: Path, t: Tree, d: nat, es: seq<PathEntry>, end: nat)
    requires s.Holds(t, d) && s.root != 0
    requires FullPath(s.V(), s.root, t, path) && |path.entries| == d > 1 && After(t, LeafAt(path)) != []
    requires es == path.entries[..d - 1] && end == End(t, LeafAt(path))
    ensures s.Readable() && Rep(s.V(), s.root, t) && Level(t, d) && Separated(t) && Sorted(Contents(t)) && 0 !in s.V()
    ensures Climbing(s.V(), s.root, t, es, |es|, end)
  {
    assert es[..|es|] == es;
  }

  lemma {:induction false} ClimbTurn(st: Store, root: nat, t: Tree, d: nat, es: seq<PathEntry>, k: nat,
                                     turn: PathEntry, end: nat)
    requires Rep(st, root, t) && Level(t, d) && Separated(t) && Sorted(Contents(t)) && 0 !in st
    requires Climbing(st, root, t, es, k, end)
    requires es[k - 1].block in st && st[es[k - 1].block].InnerRec? && es[k - 1].index + 1 < |st[es[k - 1].block].kids|
    requires var b, i := es[k - 1].block, es[k - 1].index;
             && turn.block == b && turn.index == i + 1 && turn.prevKey == KeyAt(st[b], i)
             && turn.nextKey == if KeyAt(st[b], i + 1) != 0 then KeyAt(st[b], i + 1) else if k > 1
                then es[k - 2].nextKey else 0
    ensures Turning(st, root, t, d, es[..k - 1] + [turn], st[turn.block].kids[turn.index], turn.prevKey, end)
  {
    ClimbPlace(st, root, t, es, k, end);
    hide Turning, Separated, Sorted, Level, Rep, Way;
    TurnStep(st, root, t, d, es[..k - 1], turn, es[k - 1].index, if k > 1 then es[k - 2].nextKey else 0);
  }

  // The deepest node of the way with another child to the right.
  method Climb(s: TreeState, es: seq<PathEntry>, ghost end: nat, ghost t: Tree, ghost d: nat) returns (k: nat)
    requires s.Readable() && Rep(s.V(), s.root, t) && Separated(t) && 0 !in s.V()
    requires Climbing(s.V(), s.root, t, es, |es|, end)
    ensures Climbing(s.V(), s.root, t, es, k, end) && 0 < k <= |es|
    ensures var b := es[k - 1].block;
            b in s.V() && !s.IsLeaf(b) && s.V()[b].InnerRec? && es[k - 1].index + 1 < |s.V()[b].kids|
  {
    hide *;
    k := |es|;
    while true
      invariant 0 <= k <= |es| && Climbing(s.V(), s.root, t, es, k, end)
      decreases k
    {
      ClimbStep(s.V(), s.root, t, es, k, end);
      if s.Child(es[k - 1].block, es[k - 1].index + 1) != 0 {
        return;
      }
      k := k - 1;
    }
  }

  // Leftmost leaf below block b.
  method Descend(s: TreeState, es: seq<PathEntry>, b: nat, ghost start: nat, ghost t: Tree, ghost d: nat)
    returns (r: Path)
    requires s.Readable() && Rep(s.V(), s.root, t) && Level(t, d) && Separated(t) && Sorted(Contents(t)) && Keyed(t)
             && es != []
    requires Turning(s.V(), s.root, t, d, es, b, es[|es| - 1].prevKey, start)
    ensures Lands(s.V(), s.root, t, d, r, start)
  {
    hide *;
    var fs, child, prev := es, b, es[|es| - 1].prevKey;
    DescendNode(s.V(), s.root, t, d, fs, child, prev, start);
    while !s.IsLeaf(child)
      invariant Turning(s.V(), s.root, t, d, fs, child, prev, start)
      invariant child in s.store && (s.V()[child].LeafRec? <==> |fs| + 1 == d) && |fs| < d
      decreases d - |fs|
    {
      var f := PathEntry(child, 0, prev, s.Key(child, 0));
      DescendStep(s.V(), s.root, t, d, fs, f, start);
      fs, child := fs + [f], s.Child(child, 0);
      DescendNode(s.V(), s.root, t, d, fs, child, prev, start);
    }
    var f := PathEntry(child, 0, prev, s.Key(child, 0));
    r := Path(fs + [f], s.Data(child, 0));
    DescendLeaf(s.V(), s.root, t, d, fs, f, start, r);
  }

  lemma {:induction false} DescendNode(st: Store, root: nat, t: Tree, d: nat, es: seq<PathEntry>, b: nat, prev: nat,
                                       start: nat)
    requires Rep(st, root, t) && Level(t, d) && Turning(st, root, t, d, es, b, prev, start)
    ensures Rep(st, b, At(t, Idx(es))) && b in st && (st[b].LeafRec? <==> |es| + 1 == d) && |es| < d
  {
    RepAt(st, root, t, Idx(es));
    ReplaceLevel(t, Idx(es), At(t, Idx(es)), d);
  }
}
