// B+ trees as values: what a tree holds, when it is well formed, and how one
// node-level step (split, borrow, merge, separator update) changes it.
// Key 0 and data 0 mean "no entry", as they do in the on-disk nodes.
module TreeModel {

  datatype Entry = Entry(key: nat, data: nat)

  datatype Tree =
    | Leaf(es: seq<Entry>)
    | Node(ks: seq<nat>, cs: seq<Tree>)

  // Key capacities of leaf and internal nodes; block_tree_set_sizes asserts both are at least 2.
  datatype Caps = Caps(leaf: nat, inner: nat)

  // In-order entries of a tree.
  function Contents(t: Tree): seq<Entry>
    decreases t, 1
  {
    match t
    case Leaf(es) => es
    case Node(_, cs) => Flat(cs)
  }

  function Flat(cs: seq<Tree>): seq<Entry>
    decreases cs, 0
  {
    if cs == [] then [] else Contents(cs[0]) + Flat(cs[1..])
  }

  function FirstKey(t: Tree): nat
    requires Contents(t) != []
  {
    Contents(t)[0].key
  }

  // Every child is non-empty and every separator is the first key to its right.
  ghost predicate Separated(t: Tree)
    decreases t
  {
    match t
    case Leaf(_) => true
    case Node(ks, cs) =>
      && |cs| == |ks| + 1
      && (forall i :: 0 <= i < |cs| ==> Separated(cs[i]) && Contents(cs[i]) != [])
      && (forall i :: 0 <= i < |ks| ==> ks[i] == FirstKey(cs[i + 1]))
  }

  // All leaves at the same depth d.
  ghost predicate Level(t: Tree, d: nat)
    decreases t
  {
    match t
    case Leaf(_) => d == 1
    case Node(ks, cs) =>
      && d > 1
      && |cs| == |ks| + 1
      && forall i :: 0 <= i < |cs| ==> Level(cs[i], d - 1)
  }

  // Occupancy of one node: at most the capacity, at least half of it unless it is the root.
  predicate CountOk(t: Tree, c: Caps, root: bool)
  {
    match t
    case Leaf(es) => |es| <= c.leaf && (root || |es| >= c.leaf / 2)
    case Node(ks, _) => 1 <= |ks| <= c.inner && (root || |ks| >= c.inner / 2)
  }

  ghost predicate Filled(t: Tree, c: Caps, root: bool)
    decreases t
  {
    CountOk(t, c, root)
    && (t.Node? ==> forall i :: 0 <= i < |t.cs| ==> Filled(t.cs[i], c, false))
  }

  ghost predicate KidsFilled(t: Tree, c: Caps)
  {
    t.Node? ==> forall i :: 0 <= i < |t.cs| ==> Filled(t.cs[i], c, false)
  }

  ghost predicate Le(es: seq<Entry>, i: nat, j: nat)
    requires i < |es| && j < |es|
  {
    es[i].key <= es[j].key
  }

  // Every internal node has a key, so at least two children.
  ghost predicate Keyed(t: Tree)
    decreases t
  {
    t.Node? ==> |t.ks| >= 1 && forall i :: 0 <= i < |t.cs| ==> Keyed(t.cs[i])
  }

  lemma {:induction false} FilledKeyed(t: Tree, c: Caps, root: bool)
    requires Filled(t, c, root)
    ensures Keyed(t)
    decreases t
  {
    if t.Node? {
      forall i | 0 <= i < |t.cs|
        ensures Keyed(t.cs[i])
      {
        FilledKeyed(t.cs[i], c, false);
      }
    }
  }

  // Keys and data are non-zero and keys never decrease.
  ghost predicate Sorted(es: seq<Entry>)
  {
    && (forall i :: 0 <= i < |es| ==> es[i].key > 0 && es[i].data > 0)
    && (forall i, j :: 0 <= i < j < |es| ==> Le(es, i, j))
  }

  // The invariant of a tree of depth d between operations.
  ghost predicate Good(t: Tree, d: nat, c: Caps)
  {
    Level(t, d) && Separated(t) && Filled(t, c, true) && Sorted(Contents(t))
  }

  // ---- positions inside a tree, named by the child indices from the root ----

  predicate Along(t: Tree, p: seq<nat>)
    decreases |p|
  {
    p == [] || (t.Node? && p[0] < |t.cs| && Along(t.cs[p[0]], p[1..]))
  }

  function At(t: Tree, p: seq<nat>): Tree
    requires Along(t, p)
    decreases |p|
  {
    if p == [] then t else At(t.cs[p[0]], p[1..])
  }

  function Replace(t: Tree, p: seq<nat>, s: Tree): Tree
    requires Along(t, p)
    decreases |p|
  {
    if p == [] then s else Node(t.ks, t.cs[p[0] := Replace(t.cs[p[0]], p[1..], s)])
  }

  // Entries left and right of the subtree at p.
  function Before(t: Tree, p: seq<nat>): seq<Entry>
    requires Along(t, p)
    decreases |p|
  {
    if p == [] then [] else Flat(t.cs[..p[0]]) + Before(t.cs[p[0]], p[1..])
  }

  function After(t: Tree, p: seq<nat>): seq<Entry>
    requires Along(t, p)
    decreases |p|
  {
    if p == [] then [] else After(t.cs[p[0]], p[1..]) + Flat(t.cs[p[0] + 1..])
  }

  predicate AllZero(p: seq<nat>) {
    forall i :: 0 <= i < |p| ==> p[i] == 0
  }

  // The key of the deepest ancestor reached through a non-zero index is set to k (block_tree_update_key).
  function SetLow(t: Tree, p: seq<nat>, k: nat): Tree
    requires Along(t, p)
    decreases |p|
  {
    if p == [] then t
    else if !AllZero(p[1..]) then Node(t.ks, t.cs[p[0] := SetLow(t.cs[p[0]], p[1..], k)])
    else if 0 < p[0] <= |t.ks| then Node(t.ks[p[0] - 1 := k], t.cs)
    else t
  }

  // ---- Flat ----

  lemma {:induction false} FlatAppend(a: seq<Tree>, b: seq<Tree>)
    ensures Flat(a + b) == Flat(a) + Flat(b)
    decreases |a|
  {
    if a == [] {
      assert a + b == b;
    } else {
      FlatAppend(a[1..], b);
      assert (a + b)[1..] == a[1..] + b;
    }
  }

  lemma {:induction false} FlatSplit(cs: seq<Tree>, i: nat)
    requires i < |cs|
    ensures Flat(cs) == Flat(cs[..i]) + Contents(cs[i]) + Flat(cs[i + 1..])
  {
    FlatAppend(cs[..i], cs[i..]);
    assert cs == cs[..i] + cs[i..];
    assert cs[i..][1..] == cs[i + 1..];
  }

  lemma {:induction false} FlatUpdate(cs: seq<Tree>, i: nat, s: Tree)
    requires i < |cs|
    ensures Flat(cs[i := s]) == Flat(cs[..i]) + Contents(s) + Flat(cs[i + 1..])
  {
    var u := cs[i := s];
    FlatSplit(u, i);
    assert u[..i] == cs[..i] && u[i + 1..] == cs[i + 1..];
  }

  lemma {:induction false} FlatHead(cs: seq<Tree>)
    requires cs != [] && Contents(cs[0]) != []
    ensures Flat(cs) != [] && Flat(cs)[0] == Contents(cs[0])[0]
  {
  }

  lemma NodeContents(t: Tree)
    ensures Contents(t) == if t.Leaf? then t.es else Flat(t.cs)
  {
  }

  lemma EmptyFlat()
    ensures Flat([]) == []
  {
  }

  lemma OneFlat(c: Tree)
    ensures Flat([c]) == Contents(c)
  {
    assert [c][1..] == [];
  }

  // ---- Replace ----

  lemma {:induction false} ReplaceContents(t: Tree, p: seq<nat>, s: Tree)
    requires Along(t, p)
    ensures Contents(Replace(t, p, s)) == Before(t, p) + Contents(s) + After(t, p)
    decreases |p|
  {
    if p != [] {
      ReplaceContents(t.cs[p[0]], p[1..], s);
      FlatUpdate(t.cs, p[0], Replace(t.cs[p[0]], p[1..], s));
    }
  }

  lemma {:induction false} ReplaceSame(t: Tree, p: seq<nat>)
    requires Along(t, p)
    ensures Replace(t, p, At(t, p)) == t
    decreases |p|
  {
    if p != [] {
      ReplaceSame(t.cs[p[0]], p[1..]);
      assert t.cs[p[0] := t.cs[p[0]]] == t.cs;
    }
  }

  lemma {:induction false} ContentsAt(t: Tree, p: seq<nat>)
    requires Along(t, p)
    ensures Contents(t) == Before(t, p) + Contents(At(t, p)) + After(t, p)
  {
    ReplaceContents(t, p, At(t, p));
    ReplaceSame(t, p);
  }

  // What lies at and around p after a replacement.
  lemma {:induction false} ReplaceAt(t: Tree, p: seq<nat>, s: Tree)
    requires Along(t, p)
    ensures Along(Replace(t, p, s), p) && At(Replace(t, p, s), p) == s
    ensures Before(Replace(t, p, s), p) == Before(t, p) && After(Replace(t, p, s), p) == After(t, p)
    decreases |p|
  {
    if p != [] {
      var c := Replace(t.cs[p[0]], p[1..], s);
      ReplaceAt(t.cs[p[0]], p[1..], s);
      assert t.cs[p[0] := c][..p[0]] == t.cs[..p[0]];
      assert t.cs[p[0] := c][p[0] + 1..] == t.cs[p[0] + 1..];
    }
  }

  lemma {:induction false} ReplaceTwice(t: Tree, p: seq<nat>, s: Tree, s': Tree)
    requires Along(t, p)
    ensures Along(Replace(t, p, s), p) && Replace(Replace(t, p, s), p, s') == Replace(t, p, s')
    decreases |p|
  {
    if p != [] {
      ReplaceTwice(t.cs[p[0]], p[1..], s, s');
    }
  }

  // A position extended by one more child index.
  lemma {:induction false} AtSnoc(t: Tree, p: seq<nat>, i: nat)
    ensures Along(t, p + [i]) <==> Along(t, p) && At(t, p).Node? && i < |At(t, p).cs|
    ensures Along(t, p + [i]) ==> At(t, p + [i]) == At(t, p).cs[i]
    ensures Along(t, p + [i]) ==> Before(t, p + [i]) == Before(t, p) + Flat(At(t, p).cs[..i])
    ensures Along(t, p + [i]) ==> After(t, p + [i]) == Flat(At(t, p).cs[i + 1..]) + After(t, p)
    decreases |p|
  {
    var q := p + [i];
    if p == [] {
      assert q[1..] == [];
    } else {
      assert q[1..] == p[1..] + [i];
      if t.Node? && p[0] < |t.cs| {
        AtSnoc(t.cs[p[0]], p[1..], i);
      }
    }
  }

  lemma {:induction false} ReplaceSnoc(t: Tree, p: seq<nat>, i: nat, s: Tree)
    requires Along(t, p + [i])
    ensures Along(t, p) && At(t, p).Node? && i < |At(t, p).cs|
    ensures Replace(t, p + [i], s) == Replace(t, p, Node(At(t, p).ks, At(t, p).cs[i := s]))
    decreases |p|
  {
    var q := p + [i];
    AtSnoc(t, p, i);
    if p == [] {
      assert q[1..] == [];
    } else {
      assert q[1..] == p[1..] + [i];
      ReplaceSnoc(t.cs[p[0]], p[1..], i, s);
    }
  }

  lemma {:induction false} ReplaceLevel(t: Tree, p: seq<nat>, s: Tree, d: nat)
    requires Along(t, p) && Level(t, d)
    ensures |p| < d && Level(At(t, p), d - |p|)
    ensures Level(s, d - |p|) ==> Level(Replace(t, p, s), d)
    decreases |p|
  {
    if p != [] {
      ReplaceLevel(t.cs[p[0]], p[1..], s, d - 1);
    }
  }

  lemma {:induction false} SeparatedAt(t: Tree, p: seq<nat>)
    requires Along(t, p) && Separated(t)
    ensures Separated(At(t, p))
    ensures p != [] ==> Contents(At(t, p)) != [] && Contents(t) != []
    ensures Contents(t) != [] && AllZero(p) ==> Contents(At(t, p)) != [] && FirstKey(t) == FirstKey(At(t, p))
    decreases |p|
  {
    if p != [] {
      SeparatedAt(t.cs[p[0]], p[1..]);
      FlatHead(t.cs);
    }
  }

  lemma {:induction false} KeyedAt(t: Tree, p: seq<nat>)
    requires Along(t, p) && Keyed(t)
    ensures Keyed(At(t, p))
    decreases |p|
  {
    if p != [] {
      KeyedAt(t.cs[p[0]], p[1..]);
    }
  }

  // Replacing a subtree without touching its first key keeps all separators right.
  lemma {:induction false} SeparatedReplace(t: Tree, p: seq<nat>, s: Tree)
    requires Along(t, p) && Separated(t) && Separated(s)
    requires Contents(s) != [] && Contents(At(t, p)) != [] && FirstKey(s) == FirstKey(At(t, p))
    ensures Separated(Replace(t, p, s))
    ensures Contents(t) != [] && Contents(Replace(t, p, s)) != [] && FirstKey(Replace(t, p, s)) == FirstKey(t)
    decreases |p|
  {
    if p != [] {
      SeparatedReplace(t.cs[p[0]], p[1..], s);
      FlatHead(t.cs);
      FlatHead(Replace(t, p, s).cs);
    }
  }

  // Replacing a subtree and then fixing the separator to its left keeps all separators right.
  lemma {:induction false} SeparatedSetLow(t: Tree, p: seq<nat>, s: Tree)
    requires Along(t, p) && Separated(t) && Separated(s) && Contents(s) != []
    ensures Along(Replace(t, p, s), p)
    ensures var r := SetLow(Replace(t, p, s), p, FirstKey(s));
            && Separated(r)
            && Contents(r) == Contents(Replace(t, p, s)) != []
            && (AllZero(p) ==> FirstKey(r) == FirstKey(s))
            && (!AllZero(p) ==> Contents(t) != [] && FirstKey(r) == FirstKey(t))
    decreases |p|
  {
    if p != [] {
      var i := p[0];
      var c := Replace(t.cs[i], p[1..], s);
      SeparatedSetLow(t.cs[i], p[1..], s);
      var u := Replace(t, p, s);
      var c' := SetLow(c, p[1..], FirstKey(s));
      var r := SetLow(u, p, FirstKey(s));
      FlatHead(t.cs);
      if !AllZero(p[1..]) {
        assert r.cs == t.cs[i := c'];
        FlatUpdate(t.cs, i, c');
        FlatUpdate(t.cs, i, c);
      } else {
        SetLowZero(c, p[1..], FirstKey(s));
        assert r.cs == t.cs[i := c];
        assert AllZero(p) <==> i == 0;
      }
      FlatHead(r.cs);
    }
  }

  lemma {:induction false} SetLowZero(t: Tree, p: seq<nat>, k: nat)
    requires Along(t, p) && AllZero(p)
    ensures SetLow(t, p, k) == t
    decreases |p|
  {
  }

  // Updating a separator moves no entry and keeps every subtree below it.
  lemma {:induction false} SetLowShape(t: Tree, p: seq<nat>, k: nat)
    requires Along(t, p)
    ensures Contents(SetLow(t, p, k)) == Contents(t)
    ensures Along(SetLow(t, p, k), p) && At(SetLow(t, p, k), p) == At(t, p)
    ensures forall d :: Level(t, d) ==> Level(SetLow(t, p, k), d)
    decreases |p|
  {
    if p != [] && !AllZero(p[1..]) {
      SetLowShape(t.cs[p[0]], p[1..], k);
      FlatUpdate(t.cs, p[0], SetLow(t.cs[p[0]], p[1..], k));
      FlatSplit(t.cs, p[0]);
    } else if p != [] {
    }
  }

  // ---- occupancy away from one position ----

  // Every node outside the subtree at p is properly filled.
  ghost predicate FilledAround(t: Tree, p: seq<nat>, c: Caps, root: bool)
    requires Along(t, p)
    decreases |p|
  {
    p == [] || (
      && CountOk(t, c, root)
      && (forall i :: 0 <= i < |t.cs| && i != p[0] ==> Filled(t.cs[i], c, false))
      && FilledAround(t.cs[p[0]], p[1..], c, false))
  }

  lemma {:induction false} FilledAroundAt(t: Tree, p: seq<nat>, c: Caps, root: bool)
    requires Along(t, p) && Filled(t, c, root)
    ensures FilledAround(t, p, c, root) && Filled(At(t, p), c, root && p == [])
    decreases |p|
  {
    if p != [] {
      FilledAroundAt(t.cs[p[0]], p[1..], c, false);
    }
  }

  lemma {:induction false} AroundKeyed(t: Tree, p: seq<nat>, c: Caps, root: bool)
    requires Along(t, p) && FilledAround(t, p, c, root) && Keyed(At(t, p))
    ensures Keyed(t)
    decreases |p|
  {
    if p != [] {
      AroundKeyed(t.cs[p[0]], p[1..], c, false);
      forall i | 0 <= i < |t.cs|
        ensures Keyed(t.cs[i])
      {
        if i != p[0] {
          FilledKeyed(t.cs[i], c, false);
        }
      }
    }
  }

  lemma {:induction false} FilledReplace(t: Tree, p: seq<nat>, s: Tree, c: Caps, root: bool)
    requires Along(t, p) && FilledAround(t, p, c, root)
    ensures Along(Replace(t, p, s), p) && FilledAround(Replace(t, p, s), p, c, root)
    ensures Filled(s, c, root && p == []) ==> Filled(Replace(t, p, s), c, root)
    decreases |p|
  {
    if p != [] {
      FilledReplace(t.cs[p[0]], p[1..], s, c, false);
    }
  }

  // One level up: the parent counts as filled and so do the other children.
  lemma {:induction false} FilledSnoc(t: Tree, p: seq<nat>, i: nat, c: Caps, root: bool)
    requires Along(t, p + [i])
    ensures Along(t, p) && At(t, p).Node? && i < |At(t, p).cs|
    ensures FilledAround(t, p + [i], c, root) <==>
            && FilledAround(t, p, c, root)
            && CountOk(At(t, p), c, root && p == [])
            && forall j :: 0 <= j < |At(t, p).cs| && j != i ==> Filled(At(t, p).cs[j], c, false)
    decreases |p|
  {
    var q := p + [i];
    AtSnoc(t, p, i);
    if p == [] {
      assert q[1..] == [];
    } else {
      assert q[1..] == p[1..] + [i];
      FilledSnoc(t.cs[p[0]], p[1..], i, c, false);
    }
  }

  lemma {:induction false} SetLowFilled(t: Tree, p: seq<nat>, k: nat, c: Caps, root: bool)
    requires Along(t, p) && FilledAround(t, p, c, root)
    ensures Along(SetLow(t, p, k), p) && FilledAround(SetLow(t, p, k), p, c, root)
    decreases |p|
  {
    SetLowShape(t, p, k);
    if p != [] && !AllZero(p[1..]) {
      SetLowFilled(t.cs[p[0]], p[1..], k, c, false);
    } else if p != [] {
    }
  }
}
