// Nodes as block_tree.c stores them: an array of keys and an array of children or data, zero
// behind the last entry, changed by moving entries up or down.
module NodeBuffers {
  import opened TreeModel
  import opened TreeSteps
  import opened TreeStore
  import opened TreePath
  import opened TreeSplit
  import opened TreeInsert
  import opened TreeMerge
  import opened TreeRemove

  // ~0: everything from the destination on is removed
  const END: nat := 0xFFFF_FFFF

  function Zeros(n: nat): seq<nat> { seq(n, _ => 0) }

  function Splice(s: seq<nat>, at: nat, x: seq<nat>): seq<nat>
    requires at <= |s|
  {
    s[..at] + x + s[at..]
  }

  // s without the entries from dest up to src, filled up with zeros
  function Cut(s: seq<nat>, dest: nat, src: nat): seq<nat>
    requires dest <= src && dest <= |s|
  {
    var rest := if src < |s| then s[src..] else [];
    s[..dest] + rest + Zeros(|s| - dest - |rest|)
  }

  // Inserting: entries from src on move up, those at the end to the overflow.
  method ShiftUp(a: array<nat>, dest: nat, src: nat, x: seq<nat>) returns (over: seq<nat>)
    requires src < dest && |x| == dest - src && (dest <= a.Length || src == a.Length)
    modifies a
    ensures a[..] + over == Splice(old(a[..]), src, x)
  {
    var n, size := a.Length, dest - src;
    if src == n {
      return x;
    }
    ghost var s := a[..];
    over := a[n - size..];
    forall i | 0 <= i < n - dest {
      a[dest + i] := a[src + i];
    }
    forall i | 0 <= i < size {
      a[src + i] := x[i];
    }
    assert a[..] == s[..src] + x + s[src..n - size];
  }

  // Deleting: entries from src on move down, and the end is cleared.
  method ShiftDown(a: array<nat>, dest: nat, src: nat)
    requires dest <= src && dest <= a.Length
    modifies a
    ensures a[..] == Cut(old(a[..]), dest, src)
  {
    var n, clear := a.Length, dest;
    ghost var s := a[..];
    if src < n {
      forall i | 0 <= i < n - src {
        a[dest + i] := a[src + i];
      }
      clear := n + dest - src;
      assert a[..clear] == s[..dest] + s[src..];
    }
    ghost var kept := a[..clear];
    forall i | clear <= i < n {
      a[i] := 0;
    }
    assert a[..] == kept + Zeros(n - clear);
  }

  // One round of block_tree_node_shift, for keys or for children and data.
  method ShiftArray(a: array<nat>, dest: nat, src: nat, x: seq<nat>) returns (over: seq<nat>)
    requires if src < dest then |x| == dest - src && (dest <= a.Length || src == a.Length) else dest <= a.Length
    modifies a
    ensures src < dest ==> a[..] + over == Splice(old(a[..]), src, x)
    ensures src >= dest ==> over == [] && a[..] == Cut(old(a[..]), dest, src)
  {
    if src < dest {
      over := ShiftUp(a, dest, src, x);
    } else {
      ShiftDown(a, dest, src);
      over := [];
    }
  }

  // ---- arrays that hold s, followed by zeros ----

  ghost predicate Padded(a: seq<nat>, s: seq<nat>)
  {
    |s| <= |a| && a == s + Zeros(|a| - |s|)
  }

  lemma PadInsert(a: seq<nat>, s: seq<nat>, i: nat, x: nat, a': seq<nat>, over: seq<nat>)
    requires Padded(a, s) && i <= |s| && |a'| == |a| && |over| == 1 && a' + over == Splice(a, i, [x])
    ensures if |s| < |a| then Padded(a', Splice(s, i, [x])) && over == [0] else a' + over == Splice(s, i, [x])
  {
    if |s| < |a| {
      assert Splice(a, i, [x]) == Splice(s, i, [x]) + Zeros(|a| - |s| - 1) + [0];
      assert a' == (a' + over)[..|a|] && over == (a' + over)[|a|..];
    }
  }

  lemma PadAppend(a: seq<nat>, s: seq<nat>, x: seq<nat>, a': seq<nat>, over: seq<nat>)
    requires Padded(a, s) && |s| + |x| <= |a| && |a'| == |a| && a' + over == Splice(a, |s|, x)
    ensures Padded(a', s + x) && over == Zeros(|x|)
  {
    assert Splice(a, |s|, x) == s + x + Zeros(|a| - |s| - |x|) + Zeros(|x|);
    assert a' == (a' + over)[..|a|] && over == (a' + over)[|a|..];
  }

  lemma PadCut(a: seq<nat>, s: seq<nat>, i: nat, j: nat)
    requires Padded(a, s) && i <= j && i <= |s|
    ensures Padded(Cut(a, i, j), s[..i] + if j < |s| then s[j..] else [])
  {
    assert j < |s| ==> a[j..] == s[j..] + Zeros(|a| - |s|);
    assert |s| <= j < |a| ==> a[j..] == Zeros(|a| - j);
  }

  // ---- node records as two lists ----

  function Ks(r: NodeRec): (ks: seq<nat>)
    ensures |ks| == if r.LeafRec? then |r.es| else |r.ks|
  {
    if r.LeafRec? then seq(|r.es|, i requires 0 <= i < |r.es| => r.es[i].key) else r.ks
  }

  function Ds(r: NodeRec): (ds: seq<nat>)
    ensures |ds| == if r.LeafRec? then |r.es| else |r.kids|
  {
    if r.LeafRec? then seq(|r.es|, i requires 0 <= i < |r.es| => r.es[i].data) else r.kids
  }

  // Key k with its data, or its left or right child, inserted at i.
  function Grown(r: NodeRec, i: nat, right: bool, k: nat, d: nat): NodeRec
    requires i <= Size(r) && Shape(r)
  {
    if r.LeafRec? then LeafRec(InsertAt(r.es, i, Entry(k, d)))
    else InnerRec(Splice(r.ks, i, [k]), Splice(r.kids, if right then i + 1 else i, [d]))
  }

  lemma GrownLists(r: NodeRec, i: nat, right: bool, k: nat, d: nat)
    requires i <= Size(r) && Shape(r) && (right ==> r.InnerRec?)
    ensures var g := Grown(r, i, right, k, d);
            g.LeafRec? == r.LeafRec? && Size(g) == Size(r) + 1 && Shape(g) && Ks(g) == Splice(Ks(r), i, [k])
              && Ds(g) == Splice(Ds(r), if right then i + 1 else i, [d])
  {
  }

  // Without the last entry.
  function Front(r: NodeRec): NodeRec
    requires Size(r) > 0 && Shape(r)
  {
    if r.LeafRec? then LeafRec(r.es[..|r.es| - 1]) else InnerRec(r.ks[..|r.ks| - 1], r.kids[..|r.kids| - 1])
  }

  lemma FrontLists(r: NodeRec)
    requires Size(r) > 0 && Shape(r)
    ensures Front(r).LeafRec? == r.LeafRec? && Shape(Front(r)) && Ks(Front(r)) == Ks(r)[..Size(r) - 1]
            && Ds(Front(r)) == Ds(r)[..|Ds(r)| - 1]
  {
  }

  // Without entry i; of an internal node, key i and the child left or right of it.
  function Dropped(r: NodeRec, i: nat, right: bool): NodeRec
    requires i < Size(r) && Shape(r)
  {
    if r.LeafRec? then LeafRec(RemoveAt(r.es, i))
    else
      var j := if right then i + 1 else i;
      InnerRec(r.ks[..i] + r.ks[i + 1..], r.kids[..j] + r.kids[j + 1..])
  }

  lemma DroppedLists(r: NodeRec, i: nat, right: bool)
    requires i < Size(r) && Shape(r) && (right ==> r.InnerRec?)
    ensures var g, j := Dropped(r, i, right), if right then i + 1 else i;
            g.LeafRec? == r.LeafRec? && Shape(g) && Ks(g) == Ks(r)[..i] + Ks(r)[i + 1..]
              && Ds(g) == Ds(r)[..j] + Ds(r)[j + 1..]
  {
  }

  lemma SliceLists(es: seq<Entry>, i: nat)
    requires i <= |es|
    ensures Ks(LeafRec(es[..i])) == Ks(LeafRec(es))[..i] && Ds(LeafRec(es[..i])) == Ds(LeafRec(es))[..i]
    ensures Ks(LeafRec(es[i..])) == Ks(LeafRec(es))[i..] && Ds(LeafRec(es[i..])) == Ds(LeafRec(es))[i..]
  {
  }

  lemma {:induction false} HalfLists(r: NodeRec, c: Caps)
    requires CapsOk(c) && Size(r) == Cap(r, c) + 1 && Shape(r)
    ensures var s := (Cap(r, c) + 1) / 2;
            var h, g, b := HalfLeft(r, c), HalfRight(r, c), if r.LeafRec? then 0 else 1;
            && s + 1 < Size(r) && h.LeafRec? == r.LeafRec? == g.LeafRec? && Shape(h) && Ks(h) == Ks(r)[..s]
            && Ds(h) == Ds(r)[..s + b]
            && Shape(g) && Ks(g) == Ks(r)[s + b..] && Ds(g) == Ds(r)[s + b..] && HalfKey(r, c) == Ks(r)[s]
  {
    if r.LeafRec? {
      SliceLists(r.es, (Cap(r, c) + 1) / 2);
    }
  }

  datatype Mode = LeftChild | RightChild | BothChildren

  class Node {
    const leaf: bool
    const max: nat
    const keys: array<nat>
    const data: array<nat>

    ghost predicate Valid()
    {
      keys != data && 2 <= max < END && keys.Length == max && data.Length == max + if leaf then 0 else 1
    }

    ghost predicate Holds(r: NodeRec)
      reads keys, data
    {
      Valid() && r.LeafRec? == leaf && (r.InnerRec? ==> |r.kids| == |r.ks| + 1) && Padded(keys[..], Ks(r))
        && Padded(data[..], Ds(r))
    }

    constructor (leaf: bool, max: nat)
      requires 2 <= max < END
      ensures Valid() && fresh(keys) && fresh(data) && this.leaf == leaf && this.max == max && Padded(keys[..], [])
              && Padded(data[..], [])
    {
      this.leaf, this.max := leaf, max;
      keys := new nat[max](_ => 0);
      data := new nat[max + if leaf then 0 else 1](_ => 0);
    }

    // block_tree_node_shift
    method Shift(dest: nat, src: nat, mode: Mode, newKeys: seq<nat>, newData: seq<nat>)
      returns (overKeys: seq<nat>, overData: seq<nat>)
      requires Valid() && (mode != LeftChild ==> !leaf)
      requires if src < dest then |newKeys| == dest - src && (dest <= max || src == max) else dest <= max
      requires var s, d := DataIndex(src, dest, mode).0, DataIndex(src, dest, mode).1;
               if s < d then |newData| == d - s && (d <= data.Length || s == data.Length) else d <= data.Length
      modifies keys, data
      ensures src < dest ==> keys[..] + overKeys == Splice(old(keys[..]), src, newKeys)
      ensures src >= dest ==> overKeys == [] && keys[..] == Cut(old(keys[..]), dest, src)
      ensures var s, d := DataIndex(src, dest, mode).0, DataIndex(src, dest, mode).1;
              if s < d then data[..] + overData == Splice(old(data[..]), s, newData)
                else overData == [] && data[..] == Cut(old(data[..]), d, s)
    {
      overKeys := ShiftArray(keys, dest, src, newKeys);
      var s, d := DataIndex(src, dest, mode).0, DataIndex(src, dest, mode).1;
      overData := ShiftArray(data, d, s, newData);
    }

    // Where the children or data are moved from and to.
    function DataIndex(src: nat, dest: nat, mode: Mode): (nat, nat)
    {
      if mode == LeftChild then (src, dest)
      else if mode == BothChildren || src == END then (src, dest + 1)
      else (src + 1, dest + 1)
    }

    // block_tree_node_insert
    method Insert(i: nat, right: bool, k: nat, d: nat, ghost r: NodeRec) returns (overKey: nat, overData: nat)
      requires Holds(r) && i <= Size(r) && (right ==> !leaf)
      modifies keys, data
      ensures var g := Grown(r, i, right, k, d);
              Shape(g) && if Size(r) < max then Holds(g) && overKey == 0 == overData
                          else Holds(Front(g)) && overKey == Ks(g)[max] && overData == Ds(g)[|Ds(g)| - 1]
    {
      hide Padded, Splice, Ks, Ds, Grown, Front;
      ghost var a, b, j := keys[..], data[..], if right then i + 1 else i;
      HoldsSize(r);
      var ok, od := Shift(i + 1, i, if right then RightChild else LeftChild, [k], [d]);
      SpliceLength(a, i, [k]);
      SpliceLength(b, j, [d]);
      overKey, overData := ok[0], od[0];
      PadInsert(a, Ks(r), i, k, keys[..], ok);
      PadInsert(b, Ds(r), j, d, data[..], od);
      GrownLists(r, i, right, k, d);
      ghost var g := Grown(r, i, right, k, d);
      FrontLists(g);
      if Size(r) == max {
        PadFull(keys[..], ok, Ks(g));
        PadFull(data[..], od, Ds(g));
      }
    }

    // block_tree_node_shift_down by one entry
    method Remove(i: nat, right: bool, ghost r: NodeRec)
      requires Holds(r) && i < Size(r) && (right ==> !leaf)
      modifies keys, data
      ensures Holds(Dropped(r, i, right))
    {
      hide Padded, Cut, Ks, Ds, Dropped;
      ghost var a, b, j := keys[..], data[..], if right then i + 1 else i;
      HoldsSize(r);
      var _, _ := Shift(i, i + 1, if right then RightChild else LeftChild, [], []);
      PadCut(a, Ks(r), i, i + 1);
      PadCut(b, Ds(r), j, j + 1);
      DroppedLists(r, i, right);
      CutTail(Ks(r), i + 1);
      CutTail(Ds(r), j + 1);
    }

    // block_tree_node_clear_end
    method ClearEnd(start: nat, ghost r: NodeRec)
      requires Holds(r) && start <= Size(r)
      modifies keys, data
      ensures Padded(keys[..], Ks(r)[..start]) && Padded(data[..], Ds(r)[..start + if leaf then 0 else 1])
    {
      hide Padded, Cut, Ks, Ds;
      ghost var a, b, j := keys[..], data[..], if leaf then start else start + 1;
      HoldsSize(r);
      var _, _ := Shift(start, END, if leaf then LeftChild else RightChild, [], []);
      PadCut(a, Ks(r), start, END);
      PadCut(b, Ds(r), j, END);
      assert Ks(r)[..start] + [] == Ks(r)[..start] && Ds(r)[..j] + [] == Ds(r)[..j];
    }

    // The node part of block_tree_node_split: this node and its copy `right` are full, and the
    // pending entry ap comes behind them.
    method Split(right: Node, ap: Inserting, c: Caps, ghost r: NodeRec) returns (parentKey: nat)
      requires Holds(r) && right.Holds(r) && {keys, data} !! {right.keys, right.data}
      requires CapsOk(c) && Size(r) == max == right.max == Cap(r, c)
      modifies keys, data, right.keys, right.data
      ensures var full := Append(r, ap);
              && Size(full) == Cap(full, c) + 1 && Shape(full)
              && Holds(HalfLeft(full, c)) && right.Holds(HalfRight(full, c)) && parentKey == HalfKey(full, c)
    {
      hide Padded, Cut, Splice, Ks, Ds, Grown, Append, HalfLeft, HalfRight, HalfKey;
      var s, k, d := (max + 1) / 2, ap.key, if leaf then ap.data else ap.child;
      var t := if leaf then s else s + 1;
      HoldsSize(r);
      right.HoldsSize(r);
      AppendGrown(r, ap);
      GrownLists(r, max, !leaf, k, d);
      HalfLists(Append(r, ap), c);
      ClearEnd(s, r);
      parentKey := right.keys[s];
      PadRead(right.keys[..], Ks(r), s);
      right.KeepTail(t, k, d, r);
      SpliceEnd(Ks(r), k, s, t);
      SpliceEnd(Ds(r), d, if leaf then s else s + 1, t);
    }

    // The parent part: key k and its right child go in at i, and a full parent returns what does
    // not fit.
    method AddRight(i: nat, k: nat, child: nat, ghost r: NodeRec) returns (overKey: nat, overChild: nat)
      requires Holds(r) && !leaf && i <= Size(r)
      modifies keys, data
      ensures var g := AddChild(r, i, k, child);
              if Size(r) < max then Holds(g) && overKey == 0 == overChild
              else
                && |g.ks| == max + 1 && Holds(InnerRec(g.ks[..max], g.kids[..max + 1]))
                && overKey == g.ks[max] && overChild == g.kids[max + 1]
    {
      hide Padded, Splice, AddChild, Grown;
      AddChildGrown(r, i, k, child);
      HoldsSize(r);
      overKey, overChild := Insert(i, true, k, child, r);
    }

    // Drop the first t entries and put k and d behind the last.
    method KeepTail(t: nat, k: nat, d: nat, ghost r: NodeRec)
      requires Holds(r) && 0 < t <= Size(r) == max
      modifies keys, data
      ensures Padded(keys[..], Ks(r)[t..] + [k]) && Padded(data[..], Ds(r)[t..] + [d])
    {
      hide Padded, Cut, Splice, Ks, Ds;
      HoldsSize(r);
      ghost var a, b := keys[..], data[..];
      var _, _ := Shift(0, t, LeftChild, [], []);
      PadCut(a, Ks(r), 0, t);
      PadCut(b, Ds(r), 0, t);
      TailOnly(Ks(r), t);
      TailOnly(Ds(r), t);
      a, b := keys[..], data[..];
      var ok, od := Shift(max - t + 1, max - t, if leaf then LeftChild else RightChild, [k], [d]);
      PadAppend(a, Ks(r)[t..], [k], keys[..], ok);
      PadAppend(b, Ds(r)[t..], [d], data[..], od);
    }

    // block_tree_node_merge_entries: the entries of src come behind those of this node, for
    // internal nodes with the parent's key k between them.
    method MergeEntries(src: Node, k: nat, ghost l: NodeRec, ghost r: NodeRec, index: nat, count: nat)
      requires Holds(l) && src.Holds(r) && {keys, data} !! {src.keys, src.data} && leaf == src.leaf && max == src.max
      requires index == Size(l) && count == Size(r) && index + count + (if leaf then 0 else 1) <= max
      modifies keys, data
      ensures Holds(Join(l, k, r))
    {
      hide Padded, Cut, Splice, Ks, Ds, Join;
      HoldsSize(l);
      src.HoldsSize(r);
      ghost var ks := Ks(l);
      var dest, mode := index, LeftChild;
      if !leaf {
        PadNext(keys[..], ks, k);
        keys[index] := k;
        assert keys[..] == old(keys[..])[index := k];
        ks := ks + [k];
        dest, mode := index + 1, BothChildren;
      }
      ghost var a, b := keys[..], data[..];
      PadTake(src.keys[..], Ks(r));
      PadTake(src.data[..], Ds(r));
      var ok, od := Shift(dest + count, dest, mode, src.keys[..count], src.data[..count + if leaf then 0 else 1]);
      Appended(a, ks, Ks(r), keys[..], ok);
      Appended(b, Ds(l), Ds(r), data[..], od);
      JoinLists(l, k, r);
    }

    // Moving the first entry of the right sibling to the end of this node.
    method TakeFromRight(right: Node, k: nat, ghost l: NodeRec, ghost r: NodeRec, count: nat)
      requires Holds(l) && right.Holds(r) && {keys, data} !! {right.keys, right.data} && leaf == right.leaf
               && max == right.max
      requires count == Size(l) < max && (if leaf then Size(r) >= 2 else Size(r) >= 1)
      modifies keys, data, right.keys, right.data
      ensures Holds(TakeFirst(l, k, r).l) && right.Holds(TakeFirst(l, k, r).r)
    {
      hide Padded, Grown, Dropped;
      right.HoldsSize(r);
      PadRead(right.keys[..], Ks(r), 0);
      PadRead(right.data[..], Ds(r), 0);
      var key, d := if leaf then right.keys[0] else k, right.data[0];
      var _, _ := Insert(count, !leaf, key, d, l);
      right.Remove(0, false, r);
      TakeFirstParts(l, k, r, key, d);
    }

    // Moving the last entry of the left sibling to the front of this node.
    method TakeFromLeft(left: Node, k: nat, ghost l: NodeRec, ghost r: NodeRec, last: nat)
      requires Holds(r) && left.Holds(l) && {keys, data} !! {left.keys, left.data} && leaf == left.leaf
               && max == left.max
      requires last + 1 == Size(l) && Size(r) < max
      modifies keys, data, left.keys, left.data
      ensures left.Holds(TakeLast(l, k, r).l) && Holds(TakeLast(l, k, r).r)
    {
      hide Padded, Grown, Dropped;
      left.HoldsSize(l);
      PadRead(left.keys[..], Ks(l), last);
      PadRead(left.data[..], Ds(l), last + if leaf then 0 else 1);
      var key, d := if leaf then left.keys[last] else k, left.data[last + if leaf then 0 else 1];
      var _, _ := Insert(0, false, key, d, r);
      left.Remove(last, !leaf, l);
      TakeLastParts(l, k, r, key, d);
    }

    lemma HoldsSize(r: NodeRec)
      requires Holds(r)
      ensures Shape(r) && |Ks(r)| == Size(r) <= max && |Ds(r)| == Size(r) + (if leaf then 0 else 1) <= data.Length
    {
    }
  }

  lemma SpliceLength(s: seq<nat>, at: nat, x: seq<nat>)
    requires at <= |s|
    ensures |Splice(s, at, x)| == |s| + |x|
  {
  }

  lemma PadFull(a: seq<nat>, over: seq<nat>, s: seq<nat>)
    requires a + over == s && |over| == 1
    ensures |s| == |a| + 1 && Padded(a, s[..|s| - 1]) && over[0] == s[|s| - 1]
  {
    assert a == (a + over)[..|a|];
    assert a + Zeros(0) == a;
  }

  lemma CutTail(s: seq<nat>, j: nat)
    requires j <= |s|
    ensures (if j < |s| then s[j..] else []) == s[j..]
  {
  }

  lemma TailOnly(s: seq<nat>, j: nat)
    requires j <= |s|
    ensures s[..0] + (if j < |s| then s[j..] else []) == s[j..]
  {
  }

  lemma PadRead(a: seq<nat>, s: seq<nat>, i: nat)
    requires Padded(a, s) && i < |s|
    ensures i < |a| && a[i] == s[i]
  {
  }

  lemma SpliceEnd(s: seq<nat>, x: nat, i: nat, j: nat)
    requires i <= |s| && j <= |s|
    ensures Splice(s, |s|, [x]) == s + [x] && Splice(s, |s|, [x])[..i] == s[..i]
            && Splice(s, |s|, [x])[j..] == s[j..] + [x]
    ensures i < |s| ==> Splice(s, |s|, [x])[i] == s[i]
  {
  }

  lemma PadNext(a: seq<nat>, s: seq<nat>, x: nat)
    requires Padded(a, s) && |s| < |a|
    ensures Padded(a[|s| := x], s + [x])
  {
  }

  lemma PadTake(a: seq<nat>, s: seq<nat>)
    requires Padded(a, s)
    ensures |s| <= |a| && a[..|s|] == s
  {
  }

  lemma Appended(a: seq<nat>, s: seq<nat>, x: seq<nat>, a': seq<nat>, over: seq<nat>)
    requires Padded(a, s) && |s| + |x| <= |a| && |a'| == |a|
    requires if x == [] then |s| <= |a| && a' == Cut(a, |s|, |s|) else a' + over == Splice(a, |s|, x)
    ensures Padded(a', s + x)
  {
    if x == [] {
      assert s + x == s && a[..|s|] + a[|s|..] == a;
    } else {
      PadAppend(a, s, x, a', over);
    }
  }

  lemma JoinLists(l: NodeRec, k: nat, r: NodeRec)
    requires l.LeafRec? == r.LeafRec? && Shape(l) && Shape(r)
    ensures var j := Join(l, k, r);
            j.LeafRec? == l.LeafRec? && Shape(j) && Ks(j) == (if l.LeafRec? then Ks(l) else Ks(l) + [k]) + Ks(r)
              && Ds(j) == Ds(l) + Ds(r)
  {
  }

  // The parent's new key and child, and the entry a full node cannot take, are inserts too.
  lemma AddChildGrown(r: NodeRec, i: nat, k: nat, child: nat)
    requires r.InnerRec? && i < |r.kids| == |r.ks| + 1
    ensures var g := AddChild(r, i, k, child);
            g == Grown(r, i, true, k, child) && g.InnerRec? && |g.ks| == |r.ks| + 1 && |g.kids| == |r.kids| + 1
  {
  }

  lemma AppendGrown(r: NodeRec, x: Inserting)
    requires Shape(r)
    ensures Append(r, x) == Grown(r, Size(r), r.InnerRec?, x.key, if r.LeafRec? then x.data else x.child)
  {
  }

  lemma TakeFirstParts(l: NodeRec, k: nat, r: NodeRec, key: nat, d: nat)
    requires l.LeafRec? == r.LeafRec? && Shape(l) && Shape(r) && (if r.LeafRec? then Size(r) >= 2 else Size(r) >= 1)
    requires key == (if r.LeafRec? then r.es[0].key else k) && d == Ds(r)[0]
    ensures TakeFirst(l, k, r).l == Grown(l, Size(l), l.InnerRec?, key, d)
            && TakeFirst(l, k, r).r == Dropped(r, 0, false)
  {
  }

  lemma TakeLastParts(l: NodeRec, k: nat, r: NodeRec, key: nat, d: nat)
    requires l.LeafRec? == r.LeafRec? && Shape(l) && Shape(r) && Size(l) >= 1
    requires key == (if l.LeafRec? then l.es[Size(l) - 1].key else k) && d == Ds(l)[|Ds(l)| - 1]
    ensures TakeLast(l, k, r).r == Grown(r, 0, false, key, d)
            && TakeLast(l, k, r).l == Dropped(l, Size(l) - 1, l.InnerRec?)
  {
  }
}
