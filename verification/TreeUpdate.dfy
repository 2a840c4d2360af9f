// Changing the key or the data of an entry where it stands (block_tree_update_block_mac).
module TreeUpdate {
  import opened TreeModel
  import opened TreeSteps
  import opened TreeStore
  import opened TreeSearch
  import opened TreePath
  import opened TreeLinks
  import opened TreeWalk
  import opened TreeSplit
  import opened TreeInsert
  import opened TreeRemove
  import opened TreeDelete

  // The test the source makes before it changes a key: prev is the greatest key below the old
  // one, next the key after the entry, 0 standing for none.
  predicate Accepts(prev: nat, next: nat, k: nat) { k >= prev && (k <= next || next == 0) }

  // prev as the source computes it from a search for old key - 1.
  function PrevKey(found: Entry, e: Entry): nat { if found == e then 0 else found.key }

  // No entry with the same key stands right before an occurrence of e.
  ghost predicate Foremost(C: seq<Entry>, e: Entry)
  {
    forall i :: 0 < i < |C| && C[i] == e ==> C[i - 1].key < e.key
  }

  // Changing the key of entry pos keeps the order exactly when the source's test accepts it and
  // it does not drop below an earlier entry with the same key.
  lemma {:induction false} AcceptsOrder(C: seq<Entry>, low: nat, pos: nat, next: nat, k: nat, d: nat)
    requires Sorted(C) && pos < |C| && k > 0 && d > 0 && low < |C| && AtFloor(C, low, C[pos].key - 1)
    requires next == Head(C[pos + 1..])
    ensures Sorted(C[pos := Entry(k, d)]) <==>
            Accepts(PrevKey(C[low], C[pos]), next, k) && (pos == 0 || C[pos - 1].key < C[pos].key || k >= C[pos].key)
  {
    var e, D := C[pos], C[pos := Entry(k, d)];
    assert FloorAt(C, low, e.key - 1, pos) && FloorAt(C, low, e.key - 1, 0);
    assert pos > 0 ==> Le(C, pos - 1, pos) && Le(C, 0, pos - 1) && FloorAt(C, low, e.key - 1, pos - 1);
    assert pos + 1 < |C| ==> C[pos + 1..][0] == C[pos + 1];
    if Sorted(D) {
      assert pos > 0 ==> Le(D, pos - 1, pos);
      assert pos + 1 < |C| ==> Le(D, pos, pos + 1);
      assert low < pos ==> Le(D, low, pos);
    }
    if Accepts(PrevKey(C[low], e), next, k) && (pos == 0 || C[pos - 1].key < e.key || k >= e.key) {
      assert pos > 0 && low < pos - 1 ==> Le(C, low, pos - 1);
      NeighboursOrder(C, pos, Entry(k, d));
    }
  }

  lemma {:induction false} NeighboursOrder(C: seq<Entry>, pos: nat, e: Entry)
    requires Sorted(C) && pos < |C| && e.key > 0 && e.data > 0
    requires (pos > 0 ==> C[pos - 1].key <= e.key) && (pos + 1 < |C| ==> e.key <= C[pos + 1].key)
    ensures Sorted(C[pos := e])
  {
    var D := C[pos := e];
    forall i, j | 0 <= i < j < |D|
      ensures Le(D, i, j)
    {
      assert Le(C, i, j);
      assert i < pos - 1 ==> Le(C, i, pos - 1);
      assert j > pos + 1 ==> Le(C, pos + 1, j);
    }
  }

  // The test alone is not enough: with two entries of the same key, the later one can be moved
  // below the earlier one.
  lemma AcceptsTooMuch()
    ensures var C := [Entry(3, 9), Entry(5, 1), Entry(5, 2)];
            && Sorted(C) && AtFloor(C, 0, 4) && Accepts(PrevKey(C[0], C[2]), Head(C[3..]), 4)
            && !Sorted(C[2 := Entry(4, 2)])
  {
    var C := [Entry(3, 9), Entry(5, 1), Entry(5, 2)];
    forall k | 0 <= k < |C|
      ensures FloorAt(C, 0, 4, k)
    {}
    var D := C[2 := Entry(4, 2)];
    assert !Le(D, 1, 2);
  }

  // ---- the tree with the entry changed ----

  lemma {:induction false} SwapContents(t: Tree, p: seq<nat>, i: nat, e: Entry, d: nat, c: Caps, u: Tree)
    requires Along(t, p) && At(t, p).Leaf? && i < |At(t, p).es| && Good(t, d, c)
             && u == Replace(t, p, Leaf(At(t, p).es[i := e]))
    ensures |Before(t, p)| + i < |Contents(t)| && Contents(u) == Contents(t)[|Before(t, p)| + i := e]
    ensures Contents(t)[|Before(t, p)| + i] == At(t, p).es[i]
  {
    hide Along, At, Level, Contents, Sorted, Replace, Before, After, Separated, Filled;
    var leaf := Leaf(At(t, p).es[i := e]);
    ReplaceContents(t, p, leaf);
    ContentsAt(t, p);
    NodeContents(At(t, p));
    NodeContents(leaf);
  }

  lemma {:induction false} SwapGood(t: Tree, p: seq<nat>, i: nat, e: Entry, d: nat, c: Caps, u: Tree, w: Tree)
    requires Along(t, p) && At(t, p).Leaf? && i < |At(t, p).es| && Good(t, d, c)
    requires u == Replace(t, p, Leaf(At(t, p).es[i := e])) && Sorted(Contents(u)) && Along(u, p)
    requires w == if p != [] && i == 0 && e.key != At(t, p).es[0].key then SetLow(u, p, e.key) else u
    ensures Good(w, d, c) && Contents(w) == Contents(u)
  {
    hide Along, At, Level, Contents, Sorted, Replace, Before, After, Separated, SetLow, FilledAround;
    var leaf := Leaf(At(t, p).es[i := e]);
    LeafReplaced(t, p, leaf.es, d);
    NodeContents(leaf);
    NodeContents(At(t, p));
    LeafFits(leaf, d - |p|);
    FilledAroundAt(t, p, c, true);
    FilledReplace(t, p, leaf, c, true);
    if i == 0 {
      SeparatedSetLow(t, p, leaf);
      SetLowShape(u, p, e.key);
      SetLowTop(u, p, e.key);
      SetLowFilled(u, p, e.key, c, true);
      FilledReplace(SetLow(u, p, e.key), p, leaf, c, true);
      ReplaceSame(SetLow(u, p, e.key), p);
    }
    if i != 0 || e.key == At(t, p).es[0].key {
      SeparatedReplace(t, p, leaf);
    }
  }

  // ---- the search before an update ----

  // The key the source takes for the predecessor.
  lemma {:induction false} PrevFound(st: Store, root: nat, t: Tree, d: nat, path: Path, e: Entry) returns (low: nat)
    requires e.key > 0 && Walked(st, root, t, d, path, e.key - 1, true) && Sorted(Contents(t)) && e in Contents(t)
    ensures low < |Contents(t)| && AtFloor(Contents(t), low, e.key - 1)
            && Contents(t)[low] == Entry(PathKey(path), path.data)
  {
    PathReads(st, root, t, path);
    low := Pos(t, path);
    assert Contents(t)[low..][0] == Contents(t)[low];
  }

  // The key after the entry a path stands on.
  lemma {:induction false} NextFound(st: Store, root: nat, t: Tree, d: nat, path: Path, e: Entry, next: nat)
    requires Standing(st, root, t, d, path, e) && Sorted(Contents(t))
    requires var n := |path.entries| - 1; var k := KeyAt(LeafRec(At(t, LeafAt(path)).es), path.entries[n].index + 1);
             next == if n > 0 && k == 0 then path.entries[n - 1].nextKey else k
    ensures next == Head(Contents(t)[Pos(t, path) + 1..])
  {
    hide FullPath, LeafKeys, Sorted, Before, After, Along, Contents, At, LeafAt;
    PathReads(st, root, t, path);
    PathTail(st, root, t, path);
    ContentsAt(t, LeafAt(path));
    NodeContents(At(t, LeafAt(path)));
    TailHead(Before(t, LeafAt(path)), At(t, LeafAt(path)).es, After(t, LeafAt(path)),
      path.entries[|path.entries| - 1].index);
  }

  lemma TailHead(b: seq<Entry>, es: seq<Entry>, a: seq<Entry>, i: nat)
    requires i < |es|
    ensures (b + es + a)[|b| + i + 1..] == es[i + 1..] + a
    ensures Head((b + es + a)[|b| + i + 1..]) == if i + 1 < |es| then es[i + 1].key else Head(a)
  {
    assert (b + es + a)[|b| + i + 1..] == es[i + 1..] + a;
    assert i + 1 == |es| ==> es[i + 1..] + a == a;
  }

  lemma SameKeyOrder(C: seq<Entry>, pos: nat, d: nat)
    requires pos < |C| && Sorted(C) && d > 0
    ensures Sorted(C[pos := Entry(C[pos].key, d)])
  {
    assert pos > 0 ==> Le(C, pos - 1, pos);
    assert pos + 1 < |C| ==> Le(C, pos, pos + 1);
    NeighboursOrder(C, pos, Entry(C[pos].key, d));
  }
}
