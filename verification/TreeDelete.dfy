// Removing one entry from a leaf: finding it, and the tree that is left.
module TreeDelete {
  import opened TreeModel
  import opened TreeSteps
  import opened TreeStore
  import opened TreeSearch
  import opened TreePath
  import opened TreeLinks
  import opened TreeWalk
  import opened TreeSplit
  import opened TreeInsert
  import opened TreeRemove
  import opened TreeKeys
  import opened TreeShort

  // The path stands on entry e.
  ghost predicate Standing(st: Store, root: nat, t: Tree, d: nat, path: Path, e: Entry)
  {
    && FullPath(st, root, t, path) && |path.entries| == d
    && Pos(t, path) < |Contents(t)| && Contents(t)[Pos(t, path)] == e && path.data > 0
  }

  // The path stands on entry number pos, which is at or before number j.
  ghost predicate Toward(st: Store, root: nat, t: Tree, d: nat, path: Path, pos: nat, j: nat)
  {
    FullPath(st, root, t, path) && |path.entries| == d && Pos(t, path) == pos <= j < |Contents(t)| && path.data > 0
  }

  // The search of block_tree_remove and block_tree_update: the entry with this key and data.
  method Find(s: TreeState, e: Entry, ghost t: Tree, ghost d: nat) returns (path: Path)
    requires s.Holds(t, d) && s.root != 0 && Keyed(t) && e.key > 0 && e.data > 0 && e in Contents(t)
    ensures Standing(s.V(), s.root, t, d, path, e)
  {
    hide *;
    HoldsSorted(s, t, d);
    path := Walk(s, e.key, false, t, d);
    if path.data == e.data {
      WalkedExact(s.V(), s.root, t, d, path, e);
    } else {
      path := Walk(s, e.key - 1, true, t, d);
      ghost var pos, j := WalkedBefore(s.V(), s.root, t, d, path, e);
      while path.data != e.data || PathKey(path) != e.key
        invariant Toward(s.V(), s.root, t, d, path, pos, j) && pos <= j && 0 <= j < |Contents(t)| && Contents(t)[j] == e
        decreases j - pos
      {
        TowardReads(s.V(), s.root, t, d, path, pos, j);
        ghost var here := path;
        path := Next(s, path, t, d);
        TowardNext(s.V(), s.root, t, d, here, path, pos, j);
        pos := pos + 1;
      }
      TowardReads(s.V(), s.root, t, d, path, pos, j);
    }
  }

  lemma HoldsSorted(s: TreeState, t: Tree, d: nat)
    requires s.Holds(t, d)
    ensures Sorted(Contents(t))
  {
  }

  lemma {:induction false} WalkedExact(st: Store, root: nat, t: Tree, d: nat, path: Path, e: Entry)
    requires Walked(st, root, t, d, path, e.key, false) && Sorted(Contents(t)) && path.data == e.data > 0
             && e in Contents(t)
    ensures Standing(st, root, t, d, path, e)
  {
    PathReads(st, root, t, path);
    var C := Contents(t);
    var k :| 0 <= k < |C| && C[k] == e;
    assert CeilAt(C, Pos(t, path), e.key, k);
  }

  lemma {:induction false} WalkedBefore(st: Store, root: nat, t: Tree, d: nat, path: Path, e: Entry)
    returns (pos: nat, j: nat)
    requires e.key > 0 && Walked(st, root, t, d, path, e.key - 1, true) && Sorted(Contents(t)) && e in Contents(t)
    ensures j < |Contents(t)| && Contents(t)[j] == e && pos <= j && Toward(st, root, t, d, path, pos, j)
  {
    var C := Contents(t);
    pos := Pos(t, path);
    j :| 0 <= j < |C| && C[j] == e;
    assert FloorAt(C, pos, e.key - 1, j);
  }

  lemma {:induction false} TowardReads(st: Store, root: nat, t: Tree, d: nat, path: Path, pos: nat, j: nat)
    requires Toward(st, root, t, d, path, pos, j) && Sorted(Contents(t))
    ensures FullPath(st, root, t, path) && |path.entries| == d && PathKey(path) != 0
    ensures pos < |Contents(t)| && Contents(t)[pos] == Entry(PathKey(path), path.data)
    ensures Standing(st, root, t, d, path, Entry(PathKey(path), path.data))
  {
    PathReads(st, root, t, path);
    assert Contents(t)[pos..][0] == Contents(t)[pos];
  }

  lemma {:induction false} TowardNext(st: Store, root: nat, t: Tree, d: nat, path: Path, r: Path, pos: nat, j: nat)
    requires Toward(st, root, t, d, path, pos, j) && Sorted(Contents(t)) && pos != j
    requires Lands(st, root, t, d, r, Pos(t, path) + if path.data > 0 then 1 else 0)
    ensures Toward(st, root, t, d, r, pos + 1, j)
  {
    PathReads(st, root, t, r);
  }

  // ---- the tree without the entry ----

  lemma {:induction false} RemovedContents(t: Tree, p: seq<nat>, i: nat, c: Caps, d: nat, u: Tree)
    requires Along(t, p) && At(t, p).Leaf? && i < |At(t, p).es| && Good(t, d, c)
    requires u == Replace(t, p, Leaf(RemoveAt(At(t, p).es, i)))
    ensures |Before(t, p)| + i < |Contents(t)| && Contents(u) == RemoveAt(Contents(t), |Before(t, p)| + i)
    ensures Sorted(Contents(u)) && Level(u, d) && Along(u, p) && At(u, p) == Leaf(RemoveAt(At(t, p).es, i))
  {
    hide Along, At, Level, Contents, Sorted, Replace, Before, After, Separated, Filled;
    var es, leaf := At(t, p).es, Leaf(RemoveAt(At(t, p).es, i));
    ReplaceContents(t, p, leaf);
    ContentsAt(t, p);
    NodeContents(At(t, p));
    NodeContents(leaf);
    SortedRemove(Contents(t), |Before(t, p)| + i);
    LeafReplaced(t, p, leaf.es, d);
  }

  lemma LeafLevel(t: Tree, d: nat)
    requires t.Leaf? && Level(t, d)
    ensures d == 1
  {
  }

  // The leaf still has an entry: w has the separator left of it right.
  lemma {:induction false} RemovedSome(t: Tree, p: seq<nat>, i: nat, c: Caps, d: nat, u: Tree, w: Tree)
    requires Along(t, p) && At(t, p).Leaf? && i < |At(t, p).es| && Good(t, d, c) && CapsOk(c)
    requires var y := RemoveAt(At(t, p).es, i);
             && u == Replace(t, p, Leaf(y)) && Along(u, p) && (y == [] ==> p == [])
             && w == if i == 0 && y != [] then SetLow(u, p, y[0].key) else u
    ensures Level(w, d) && Separated(w) && Sorted(Contents(w)) && Contents(w) == Contents(u)
    ensures Along(w, p) && At(w, p) == Leaf(RemoveAt(At(t, p).es, i)) && FilledAround(w, p, c, true)
  {
    hide Along, At, Level, Contents, Sorted, Replace, Before, After, Separated, SetLow, Filled, FilledAround;
    var leaf := Leaf(RemoveAt(At(t, p).es, i));
    RemovedContents(t, p, i, c, d, u);
    NodeContents(leaf);
    NodeContents(At(t, p));
    LeafFits(leaf, d - |p|);
    FilledAroundAt(t, p, c, true);
    FilledReplace(t, p, leaf, c, true);
    if leaf.es == [] {
      assert w == leaf by { ReplaceTop(t, p, leaf); }
    } else if i == 0 {
      SeparatedSetLow(t, p, leaf);
      SetLowShape(u, p, leaf.es[0].key);
      SetLowFilled(u, p, leaf.es[0].key, c, true);
    } else {
      SeparatedReplace(t, p, leaf);
    }
  }

  lemma ReplaceTop(t: Tree, p: seq<nat>, s: Tree)
    requires p == []
    ensures Replace(t, p, s) == s
  {
  }

  // The leaf lost its only entry: all separators but those next to it are right in t.
  lemma {:induction false} RemovedAll(t: Tree, p: seq<nat>, c: Caps, d: nat, u: Tree)
    requires Along(t, p) && At(t, p).Leaf? && |At(t, p).es| == 1 && Good(t, d, c) && CapsOk(c) && p != []
    requires u == Replace(t, p, Leaf([]))
    ensures c.leaf / 2 == 1 && Along(u, p) && ShortAt(u, t, p, c)
  {
    FilledAroundAt(t, p, c, true);
    FilledReplace(t, p, Leaf([]), c, true);
    ReplaceAt(t, p, Leaf([]));
    hide Level, Contents, Sorted, Replace, Separated, FilledAround;
  }

  // The leaf with its remaining entries y is full enough, or short by one.
  lemma {:induction false} RemovedFill(w: Tree, p: seq<nat>, c: Caps, d: nat, y: seq<Entry>)
    requires CapsOk(c) && Level(w, d) && Separated(w) && Sorted(Contents(w)) && Along(w, p) && At(w, p) == Leaf(y)
             && FilledAround(w, p, c, true)
    requires |y| < c.leaf && (p != [] ==> |y| + 1 >= c.leaf / 2)
    ensures p == [] || |y| >= c.leaf / 2 ==> Good(w, d, c)
    ensures p != [] && |y| < c.leaf / 2 ==> ShortAt(w, w, p, c)
  {
    hide Level, Contents, Sorted, Replace, Separated, FilledAround, Along;
    FilledReplace(w, p, Leaf(y), c, true);
    ReplaceSame(w, p);
  }

  // ---- the path after the leaf was written ----

  lemma {:induction false} ReplaceKs(t: Tree, p: seq<nat>, s: Tree, k: nat)
    requires Along(t, p) && k < |p|
    ensures Along(t, p[..k]) && At(t, p[..k]).Node? && Along(Replace(t, p, s), p[..k])
    ensures At(Replace(t, p, s), p[..k]).Node? && At(Replace(t, p, s), p[..k]).ks == At(t, p[..k]).ks
    decreases |p|
  {
    if k == 0 {
      assert p[..0] == [];
    } else {
      ReplaceKs(t.cs[p[0]], p[1..], s, k - 1);
      assert p[..k][1..] == p[1..][..k - 1];
    }
  }

  lemma {:induction false} PathNode(st: Store, root: nat, t: Tree, es: seq<PathEntry>, k: nat)
    requires Rep(st, root, t) && Linked(st, root, es) && k < |es| && Along(t, Idx(es[..k])) && At(t, Idx(es[..k])).Node?
    ensures es[k].block in st && st[es[k].block].InnerRec? && st[es[k].block].ks == At(t, Idx(es[..k])).ks
  {
    LinkedAt(st, root, t, es, k);
    hide Linked;
    RepAt(st, root, t, Idx(es[..k]));
  }

  // The path copied by a leaf write still has the right keys.
  lemma {:induction false} PutHints(st: Store, root: nat, t: Tree, path: Path, st': Store, root': nat, s: Tree,
                                    fs: seq<PathEntry>)
    requires Rep(st, root, t) && Separated(t) && Sorted(Contents(t)) && FullPath(st, root, t, path)
             && Linked(st, root, path.entries)
    requires Along(t, LeafAt(path)) && Rep(st', root', Replace(t, LeafAt(path), s)) && Linked(st', root', fs)
    requires |fs| == |path.entries| && forall k :: 0 <= k < |fs| ==> fs[k] == path.entries[k].(block := fs[k].block)
    ensures Hints(st', fs[..|fs| - 1]) && Idx(fs[..|fs| - 1]) == LeafAt(path)
  {
    var es, n, p := path.entries, |fs| - 1, LeafAt(path);
    assert Way(st, root, t, es[..n]);
    hide Rep, Separated, Sorted, Contents, Linked, Replace, FullPath, Way, Idx, Along, Hint;
    SamePlace(es, fs, n);
    WayHints(st, root, t, es[..n]);
    var us := fs[..n];
    forall k | 0 <= k < |us|
      ensures us[k].block in st' && Hint(st'[us[k].block], us[k])
    {
      assert es[..n][k] == es[k];
      PutHint(st, root, t, es, n, p, st', root', s, fs, k);
    }
  }

  lemma {:induction false} PutHint(st: Store, root: nat, t: Tree, es: seq<PathEntry>, n: nat, p: seq<nat>, st': Store,
                                   root': nat, s: Tree,
                                   fs: seq<PathEntry>, k: nat)
    requires Rep(st, root, t) && Linked(st, root, es) && k < n <= |es| && p == Idx(es[..n]) && Along(t, p)
    requires Rep(st', root', Replace(t, p, s)) && Linked(st', root', fs)
    requires |fs| == |es| && forall k :: 0 <= k < |fs| ==> fs[k] == es[k].(block := fs[k].block)
    requires es[k].block in st && Hint(st[es[k].block], es[k])
    ensures fs[k].block in st' && Hint(st'[fs[k].block], fs[k])
  {
    hide Rep, Linked, Replace, Along, At;
    IdxSlice(es[..n], k);
    assert es[..n][..k] == es[..k];
    SamePlace(es, fs, k);
    ReplaceKs(t, p, s, k);
    PathNode(st, root, t, es, k);
    PathNode(st', root', Replace(t, p, s), fs, k);
  }

  // ---- the steps of a removal ----

  lemma {:induction false} StandingLeaf(x: Layout, root: nat, t: Tree, d: nat, c: Caps, path: Path, e: Entry)
    requires Laid(x, root, t, c) && Standing(x.st, root, t, d, path, e)
    ensures FullPath(x.st, root, t, path) && path.entries != [] && Linked(x.st, root, path.entries)
            && Along(t, LeafAt(path))
    ensures |path.entries| == d && LeafAt(path) == Idx(path.entries[..|path.entries| - 1])
    ensures var b, i := path.entries[|path.entries| - 1].block, path.entries[|path.entries| - 1].index;
            b in x.st && x.st[b].LeafRec? && i < |x.st[b].es| <= c.leaf && At(t, LeafAt(path)) == Leaf(x.st[b].es)
              && x.st[b] == LeafRec(At(t, LeafAt(path)).es)
  {
    PathLeaf(x, root, t, c, path);
    hide Laid, Linked, Way, Contents;
  }

  // After the leaf was written with the entries y.
  lemma {:induction false} PutPath(x: Layout, root: nat, t: Tree, d: nat, c: Caps, path: Path, y: seq<Entry>,
                                   x': Layout, root': nat, u: Tree,
                                   fs: seq<PathEntry>)
    requires Laid(x, root, t, c) && Good(t, d, c) && FullPath(x.st, root, t, path) && Linked(x.st, root, path.entries)
             && Along(t, LeafAt(path))
    requires At(t, LeafAt(path)).Leaf? && u == Replace(t, LeafAt(path), Leaf(y)) && Laid(x', root', u, c)
             && Linked(x'.st, root', fs)
    requires |fs| == |path.entries|
             && forall k :: 0 <= k < |fs| ==> fs[k] == path.entries[k].(block := fs[k].block) && fs[k].block in x'.owned
    ensures Mended(x', root', u, d, c, fs[..|fs| - 1]) && OwnedPath(x'.owned, fs) && Idx(fs[..|fs| - 1]) == LeafAt(path)
  {
    assert Rep(x.st, root, t) && Rep(x'.st, root', u);
    hide Laid, Rep, Level, Separated, Sorted, Filled, Contents, Along, At, Replace, FullPath, Hints, Idx, Linked,
      LeafAt;
    PutHints(x.st, root, t, path, x'.st, root', Leaf(y), fs);
    LeafReplaced(t, LeafAt(path), y, d);
    LinkedUp(x'.st, root', fs);
    assert Level(u, d) && Along(u, LeafAt(path));
  }

  lemma {:induction false} LeafReplaced(t: Tree, p: seq<nat>, y: seq<Entry>, d: nat)
    requires Along(t, p) && At(t, p).Leaf? && Level(t, d)
    ensures var u := Replace(t, p, Leaf(y)); Level(u, d) && Along(u, p) && At(u, p) == Leaf(y)
  {
    hide Along, At, Level, Replace;
    LeafFits(Leaf(y), d - |p|);
    ReplaceLevel(t, p, At(t, p), d);
    LeafLevel(At(t, p), d - |p|);
    ReplaceLevel(t, p, Leaf(y), d);
    ReplaceAt(t, p, Leaf(y));
  }

  lemma {:induction false} LinkedUp(st: Store, root: nat, fs: seq<PathEntry>)
    requires Linked(st, root, fs)
    ensures fs[..|fs| - 1] != [] ==> Linked(st, root, fs[..|fs| - 1])
  {
    var us := fs[..|fs| - 1];
    forall k | 0 <= k < |us| - 1
      ensures Link(st, us, k)
    {
      assert Link(st, fs, k);
    }
  }

  // After the separator was updated where needed: w is a good tree or the leaf is one short.
  lemma {:induction false} TakenDone(t: Tree, d: nat, c: Caps, p: seq<nat>, i: nat, y: seq<Entry>, u: Tree, x': Layout,
                                     root': nat, w: Tree,
                                     fs: seq<PathEntry>) returns (t0: Tree)
    requires CapsOk(c) && Good(t, d, c) && Along(t, p) && At(t, p).Leaf? && i < |At(t, p).es|
             && y == RemoveAt(At(t, p).es, i)
    requires u == Replace(t, p, Leaf(y)) && Along(u, p)
             && w == if p != [] && i == 0 && y != [] then SetLow(u, p, y[0].key) else u
    requires Laid(x', root', w, c) && fs != [] && Idx(fs[..|fs| - 1]) == p && Linked(x'.st, root', fs)
             && OwnedPath(x'.owned, fs) && Hints(x'.st, fs[..|fs| - 1])
    ensures Contents(w) == Contents(u)
    ensures if p != [] && |y| < c.leaf / 2 then Short(x', root', w, t0, d, c, fs) else Good(w, d, c)
  {
    hide Laid, Level, Separated, Sorted, Filled, FilledAround, Contents, Along, At, Replace, SetLow, Linked, Hints,
      Idx, OwnedPath, ShortAt;
    LeafFilled(t, p, c, d);
    if p != [] && y == [] {
      t0 := t;
      RemovedAll(t, p, c, d, u);
      RemovedContents(t, p, i, c, d, u);
    } else {
      t0 := w;
      SetLowTop(u, p, if y == [] then 0 else y[0].key);
      RemovedSome(t, p, i, c, d, u, w);
      RemovedFill(w, p, c, d, y);
    }
  }

  lemma SetLowTop(t: Tree, p: seq<nat>, k: nat)
    requires Along(t, p)
    ensures p == [] ==> SetLow(t, p, k) == t
  {
  }

  lemma {:induction false} LeafFilled(t: Tree, p: seq<nat>, c: Caps, d: nat)
    requires Good(t, d, c) && Along(t, p) && At(t, p).Leaf?
    ensures |At(t, p).es| <= c.leaf && (p != [] ==> |At(t, p).es| >= c.leaf / 2)
  {
    hide Level, Separated, Sorted, Along, At;
    FilledAroundAt(t, p, c, true);
  }

  // A good tree can be searched between operations.
  lemma {:induction false} StateHolds(x: Layout, root: nat, t: Tree, d: nat, c: Caps)
    requires Laid(x, root, t, c) && Good(t, d, c)
    ensures var s := TreeState(x.st, c, root, NONE); s.Holds(t, d) && s.V() == x.st && Keyed(t)
  {
    hide Rep, Level, Separated, Sorted, Keyed;
    FilledKeyed(t, c, true);
  }

  lemma StandingParts(st: Store, root: nat, t: Tree, d: nat, path: Path, e: Entry)
    requires Standing(st, root, t, d, path, e)
    ensures path.entries != [] && Along(t, LeafAt(path)) && Pos(t, path) < |Contents(t)|
            && Contents(t)[Pos(t, path)] == e
  {
  }

  lemma WalkedParts(st: Store, root: nat, t: Tree, d: nat, path: Path, key: nat)
    requires Walked(st, root, t, d, path, key, false)
    ensures FullPath(st, root, t, path) && path.entries != [] && Along(t, LeafAt(path)) && At(t, LeafAt(path)).Leaf?
    ensures LeafAt(path) == Idx(path.entries[..|path.entries| - 1])
    ensures path.entries[|path.entries| - 1].prevKey <= key && AtCeil(Contents(t), Pos(t, path), key)
  {
    hide Way, AtCeil, AtFloor;
  }

  // ---- reading the whole tree ----

  // block_tree_walk from key 0 and block_tree_path_next to the end.
  method Scan(s: TreeState, ghost t: Tree, ghost d: nat) returns (C: seq<Entry>)
    requires s.Holds(t, d) && s.root != 0 && Keyed(t)
    ensures C == Contents(t)
  {
    hide *;
    HoldsSorted(s, t, d);
    C := [];
    var path := Walk(s, 0, true, t, d);
    WalkedFirst(s.V(), s.root, t, d, path);
    while PathKey(path) != 0
      invariant Lands(s.V(), s.root, t, d, path, |C|) && |C| <= |Contents(t)| && C == Contents(t)[..|C|]
      decreases |Contents(t)| - |C|
    {
      LandsReads(s.V(), s.root, t, d, path, |C|);
      C := C + [Entry(PathKey(path), path.data)];
      path := Next(s, path, t, d);
    }
    LandsReads(s.V(), s.root, t, d, path, |C|);
  }

  lemma {:induction false} WalkedFirst(st: Store, root: nat, t: Tree, d: nat, path: Path)
    requires Walked(st, root, t, d, path, 0, true) && Sorted(Contents(t))
    ensures Lands(st, root, t, d, path, 0)
  {
    PathReads(st, root, t, path);
    assert Contents(t) != [] ==> FloorAt(Contents(t), Pos(t, path), 0, 0);
  }

  lemma {:induction false} LandsReads(st: Store, root: nat, t: Tree, d: nat, path: Path, pos: nat)
    requires Lands(st, root, t, d, path, pos) && Sorted(Contents(t))
    ensures FullPath(st, root, t, path) && |path.entries| == d && Pos(t, path) == pos <= |Contents(t)|
    ensures PathKey(path) == 0 <==> pos == |Contents(t)|
    ensures PathKey(path) != 0 ==>
              path.data > 0 && pos < |Contents(t)| && Contents(t)[pos] == Entry(PathKey(path), path.data)
  {
    PathReads(st, root, t, path);
    assert pos < |Contents(t)| ==> Contents(t)[pos..][0] == Contents(t)[pos];
  }

  lemma {:induction false} WalkedFloor(st: Store, root: nat, t: Tree, d: nat, path: Path, key: nat) returns (pos: nat)
    requires Walked(st, root, t, d, path, key, true) && Sorted(Contents(t))
    ensures Contents(t) == [] ==> PathKey(path) == 0 && path.data == 0
    ensures Contents(t) != [] ==>
              pos < |Contents(t)| && AtFloor(Contents(t), pos, key)
                && Contents(t)[pos] == Entry(PathKey(path), path.data)
    ensures Contents(t) != [] ==> Lands(st, root, t, d, path, pos)
  {
    pos := Pos(t, path);
    PathReads(st, root, t, path);
    assert pos < |Contents(t)| ==> Contents(t)[pos..][0] == Contents(t)[pos];
  }

  lemma {:induction false} LandsGood(st: Store, root: nat, t: Tree, d: nat, path: Path, pos: nat)
    requires Lands(st, root, t, d, path, pos) && Sorted(Contents(t))
    ensures FullPath(st, root, t, path) && |path.entries| == d && Pos(t, path) == pos <= |Contents(t)|
    ensures PathKey(path) == 0 <==> pos == |Contents(t)|
    ensures PathKey(path) == 0 ==> path.data == 0
    ensures PathKey(path) != 0 ==>
              path.data > 0 && pos < |Contents(t)| && Contents(t)[pos] == Entry(PathKey(path), path.data)
  {
    PathReads(st, root, t, path);
    LandsReads(st, root, t, d, path, pos);
  }

  lemma {:induction false} WalkedStart(st: Store, root: nat, t: Tree, d: nat, path: Path)
    requires Walked(st, root, t, d, path, 0, true) && Sorted(Contents(t))
    ensures Lands(st, root, t, d, path, 0)
  {
    WalkedFirst(st, root, t, d, path);
  }

  // What a path of full depth shows.
  ghost predicate Shows(C: seq<Entry>, pos: nat, path: Path)
  {
    pos <= |C| && if pos < |C| then PathKey(path) == C[pos].key != 0 && (path.data == 0 || path.data == C[pos].data)
      else PathKey(path) == 0 == path.data
  }

  lemma {:induction false} FullShows(st: Store, root: nat, t: Tree, path: Path)
    requires FullPath(st, root, t, path) && Sorted(Contents(t))
    ensures Shows(Contents(t), Pos(t, path), path)
  {
    PathReads(st, root, t, path);
    var pos := Pos(t, path);
    assert pos < |Contents(t)| ==> Contents(t)[pos..][0] == Contents(t)[pos];
  }

  lemma {:induction false} WalkedCeil(st: Store, root: nat, t: Tree, d: nat, path: Path, key: nat)
    requires Walked(st, root, t, d, path, key, false) && Sorted(Contents(t))
    ensures FullPath(st, root, t, path) && |path.entries| == d && AtCeil(Contents(t), Pos(t, path), key)
            && Shows(Contents(t), Pos(t, path), path)
    ensures PathKey(path) == key > 0 ==> path.data > 0
  {
    FullShows(st, root, t, path);
  }
}
