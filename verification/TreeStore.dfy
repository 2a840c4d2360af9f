// A B+ tree laid out in numbered blocks, and how writing one block changes the tree
// that the blocks represent.
module TreeStore {
  import opened TreeModel

  datatype NodeRec =
    | LeafRec(es: seq<Entry>)
    | InnerRec(ks: seq<nat>, kids: seq<nat>)

  type Store = map<nat, NodeRec>

  // Block b and the blocks below it hold tree t, no block being used twice.
  ghost predicate Rep(st: Store, b: nat, t: Tree)
    decreases t, 1
  {
    && b in st
    && match t
       case Leaf(es) => st[b] == LeafRec(es)
       case Node(ks, cs) =>
         && st[b].InnerRec? && st[b].ks == ks
         && KidsRep(st, st[b].kids, cs)
         && b !in KidsFoot(st, st[b].kids, cs)
  }

  ghost predicate KidsRep(st: Store, kids: seq<nat>, cs: seq<Tree>)
    decreases cs, 0
  {
    && |kids| == |cs|
    && (forall i :: 0 <= i < |cs| ==> Rep(st, kids[i], cs[i]))
    && (forall i, j :: 0 <= i < j < |cs| ==> Foot(st, kids[i], cs[i]) !! Foot(st, kids[j], cs[j]))
  }

  // The blocks used by tree t rooted at block b.
  ghost function Foot(st: Store, b: nat, t: Tree): set<nat>
    decreases t, 1
  {
    if t.Node? && b in st && st[b].InnerRec? then {b} + KidsFoot(st, st[b].kids, t.cs) else {b}
  }

  ghost function KidsFoot(st: Store, kids: seq<nat>, cs: seq<Tree>): set<nat>
    decreases cs, 0
  {
    set i, x | 0 <= i < |cs| && i < |kids| && x in Foot(st, kids[i], cs[i]) :: x
  }

  // The two stores hold the same nodes in the blocks xs.
  ghost predicate Agree(st: Store, st': Store, xs: set<nat>)
  {
    forall x :: x in xs ==> x in st && x in st' && st'[x] == st[x]
  }

  lemma {:induction false} Frame(st: Store, st': Store, b: nat, t: Tree)
    requires Rep(st, b, t) && Agree(st, st', Foot(st, b, t))
    ensures Rep(st', b, t) && Foot(st', b, t) == Foot(st, b, t)
    decreases t, 1
  {
    if t.Node? {
      KidsFrame(st, st', st[b].kids, t.cs);
    }
  }

  lemma {:induction false} KidsFrame(st: Store, st': Store, kids: seq<nat>, cs: seq<Tree>)
    requires KidsRep(st, kids, cs) && Agree(st, st', KidsFoot(st, kids, cs))
    ensures KidsRep(st', kids, cs) && KidsFoot(st', kids, cs) == KidsFoot(st, kids, cs)
    decreases cs, 0
  {
    forall i | 0 <= i < |cs|
      ensures Rep(st', kids[i], cs[i]) && Foot(st', kids[i], cs[i]) == Foot(st, kids[i], cs[i])
    {
      Frame(st, st', kids[i], cs[i]);
    }
  }

  lemma {:induction false} FootStored(st: Store, b: nat, t: Tree)
    requires Rep(st, b, t)
    ensures Foot(st, b, t) <= st.Keys
    decreases t
  {
    if t.Node? {
      forall i | 0 <= i < |t.cs|
        ensures Foot(st, st[b].kids[i], t.cs[i]) <= st.Keys
      {
        FootStored(st, st[b].kids[i], t.cs[i]);
      }
    }
  }

  // Slicing and joining lists of children.
  lemma {:induction false} KidsSlice(st: Store, kids: seq<nat>, cs: seq<Tree>, i: nat, j: nat)
    requires KidsRep(st, kids, cs) && i <= j <= |cs|
    ensures KidsRep(st, kids[i..j], cs[i..j])
    ensures KidsFoot(st, kids[i..j], cs[i..j]) <= KidsFoot(st, kids, cs)
  {
  }

  lemma {:induction false} KidsHave(st: Store, kids: seq<nat>, cs: seq<Tree>, i: nat, x: nat)
    requires i < |kids| == |cs| && x in Foot(st, kids[i], cs[i])
    ensures x in KidsFoot(st, kids, cs)
  {
  }

  lemma {:induction false} KidOf(st: Store, kids: seq<nat>, cs: seq<Tree>, x: nat) returns (i: nat)
    requires |kids| == |cs| && x in KidsFoot(st, kids, cs)
    ensures i < |cs| && x in Foot(st, kids[i], cs[i])
  {
    i :| i < |cs| && x in Foot(st, kids[i], cs[i]);
  }

  lemma {:induction false} KidsJoinFoot(st: Store, ka: seq<nat>, ca: seq<Tree>, kb: seq<nat>, cb: seq<Tree>)
    requires |ka| == |ca| && |kb| == |cb|
    ensures KidsFoot(st, ka + kb, ca + cb) == KidsFoot(st, ka, ca) + KidsFoot(st, kb, cb)
  {
    hide KidsFoot, Foot;
    var k, c := ka + kb, ca + cb;
    forall x | x in KidsFoot(st, k, c)
      ensures x in KidsFoot(st, ka, ca) + KidsFoot(st, kb, cb)
    {
      var i := KidOf(st, k, c, x);
      if i < |ca| {
        KidsHave(st, ka, ca, i, x);
      } else {
        KidsHave(st, kb, cb, i - |ca|, x);
      }
    }
    forall x | x in KidsFoot(st, ka, ca)
      ensures x in KidsFoot(st, k, c)
    {
      var i := KidOf(st, ka, ca, x);
      KidsHave(st, k, c, i, x);
    }
    forall x | x in KidsFoot(st, kb, cb)
      ensures x in KidsFoot(st, k, c)
    {
      var i := KidOf(st, kb, cb, x);
      KidsHave(st, k, c, |ka| + i, x);
    }
  }

  lemma {:induction false} KidsJoin(st: Store, ka: seq<nat>, ca: seq<Tree>, kb: seq<nat>, cb: seq<Tree>)
    requires |ka| == |ca| && |kb| == |cb|
    ensures KidsFoot(st, ka + kb, ca + cb) == KidsFoot(st, ka, ca) + KidsFoot(st, kb, cb)
    ensures KidsRep(st, ka + kb, ca + cb) <==>
            KidsRep(st, ka, ca) && KidsRep(st, kb, cb) && KidsFoot(st, ka, ca) !! KidsFoot(st, kb, cb)
  {
    hide *;
    KidsJoinFoot(st, ka, ca, kb, cb);
    KidsJoinRep(st, ka, ca, kb, cb);
  }

  lemma {:induction false} KidsJoinRep(st: Store, ka: seq<nat>, ca: seq<Tree>, kb: seq<nat>, cb: seq<Tree>)
    requires |ka| == |ca| && |kb| == |cb|
    ensures KidsRep(st, ka + kb, ca + cb) <==>
            KidsRep(st, ka, ca) && KidsRep(st, kb, cb) && KidsFoot(st, ka, ca) !! KidsFoot(st, kb, cb)
  {
    hide Rep, Foot;
    var k, c := ka + kb, ca + cb;
    if KidsRep(st, k, c) {
      KidsSlice(st, k, c, 0, |ca|);
      KidsSlice(st, k, c, |ca|, |c|);
      assert k[..|ka|] == ka && c[..|ca|] == ca && k[|ka|..] == kb && c[|ca|..] == cb;
      forall x | x in KidsFoot(st, ka, ca)
        ensures x !in KidsFoot(st, kb, cb)
      {
        var i :| 0 <= i < |ca| && x in Foot(st, ka[i], ca[i]);
        forall j | 0 <= j < |cb|
          ensures x !in Foot(st, kb[j], cb[j])
        {
          assert Foot(st, k[i], c[i]) !! Foot(st, k[|ka| + j], c[|ca| + j]);
        }
      }
    }
    if KidsRep(st, ka, ca) && KidsRep(st, kb, cb) && KidsFoot(st, ka, ca) !! KidsFoot(st, kb, cb) {
      forall i, j | 0 <= i < j < |c|
        ensures Foot(st, k[i], c[i]) !! Foot(st, k[j], c[j])
      {
        if i < |ca| <= j {
          assert Foot(st, ka[i], ca[i]) <= KidsFoot(st, ka, ca);
          assert Foot(st, kb[j - |ka|], cb[j - |ka|]) <= KidsFoot(st, kb, cb);
        }
      }
    }
  }

  lemma {:induction false} NodeRep(st: Store, b: nat, ks: seq<nat>, kids: seq<nat>, cs: seq<Tree>)
    requires b in st && st[b] == InnerRec(ks, kids)
    ensures Rep(st, b, Node(ks, cs)) <==> KidsRep(st, kids, cs) && b !in KidsFoot(st, kids, cs)
    ensures Foot(st, b, Node(ks, cs)) == {b} + KidsFoot(st, kids, cs)
  {
  }

  // Two trees stored side by side in the blocks feet.
  ghost predicate PairRep(st: Store, lb: nat, l: Tree, rb: nat, r: Tree, feet: set<nat>)
  {
    Rep(st, lb, l) && Rep(st, rb, r) && Foot(st, lb, l) !! Foot(st, rb, r) && Foot(st, lb, l) + Foot(st, rb, r) == feet
  }

  lemma {:induction false} KidsOne(st: Store, k: nat, c: Tree)
    ensures KidsFoot(st, [k], [c]) == Foot(st, k, c)
    ensures KidsRep(st, [k], [c]) <==> Rep(st, k, c)
  {
    forall x
      ensures x in KidsFoot(st, [k], [c]) <==> x in Foot(st, k, c)
    {
      assert [k][0] == k && [c][0] == c;
    }
  }

  // One child singled out of a list.
  lemma {:induction false} KidsSplit(st: Store, kids: seq<nat>, cs: seq<Tree>, i: nat)
    requires |kids| == |cs| && i < |cs|
    ensures KidsFoot(st, kids, cs) ==
            KidsFoot(st, kids[..i], cs[..i]) + Foot(st, kids[i], cs[i]) + KidsFoot(st, kids[i + 1..], cs[i + 1..])
    ensures KidsRep(st, kids, cs) <==>
            && KidsRep(st, kids[..i], cs[..i]) && Rep(st, kids[i], cs[i]) && KidsRep(st, kids[i + 1..], cs[i + 1..])
            && KidsFoot(st, kids[..i], cs[..i]) !! Foot(st, kids[i], cs[i])
            && KidsFoot(st, kids[..i], cs[..i]) !! KidsFoot(st, kids[i + 1..], cs[i + 1..])
            && Foot(st, kids[i], cs[i]) !! KidsFoot(st, kids[i + 1..], cs[i + 1..])
  {
    hide *;
    var k1, c1 := [kids[i]] + kids[i + 1..], [cs[i]] + cs[i + 1..];
    assert kids == kids[..i] + k1 && cs == cs[..i] + c1;
    KidsOne(st, kids[i], cs[i]);
    KidsJoin(st, [kids[i]], [cs[i]], kids[i + 1..], cs[i + 1..]);
    KidsJoin(st, kids[..i], cs[..i], k1, c1);
  }

  // Children i..j singled out of a list.
  lemma {:induction false} KidsMiddle(st: Store, kids: seq<nat>, cs: seq<Tree>, i: nat, j: nat)
    requires |kids| == |cs| && i <= j <= |cs|
    ensures KidsFoot(st, kids, cs) ==
            KidsFoot(st, kids[..i], cs[..i]) + KidsFoot(st, kids[i..j], cs[i..j]) + KidsFoot(st, kids[j..], cs[j..])
    ensures KidsRep(st, kids, cs) <==>
            && KidsRep(st, kids[..i], cs[..i]) && KidsRep(st, kids[i..j], cs[i..j]) && KidsRep(st, kids[j..], cs[j..])
            && KidsFoot(st, kids[..i], cs[..i]) !! KidsFoot(st, kids[i..j], cs[i..j])
            && KidsFoot(st, kids[..i], cs[..i]) !! KidsFoot(st, kids[j..], cs[j..])
            && KidsFoot(st, kids[i..j], cs[i..j]) !! KidsFoot(st, kids[j..], cs[j..])
  {
    hide *;
    assert kids == kids[..i] + (kids[i..j] + kids[j..]) && cs == cs[..i] + (cs[i..j] + cs[j..]);
    KidsJoin(st, kids[i..j], cs[i..j], kids[j..], cs[j..]);
    KidsJoin(st, kids[..i], cs[..i], kids[i..j] + kids[j..], cs[i..j] + cs[j..]);
  }

  // Children i..j replaced by others, the rest left alone.
  lemma {:induction false} KidsReplace(st: Store, st': Store, kids: seq<nat>, cs: seq<Tree>, i: nat, j: nat,
                                       kx: seq<nat>, cx: seq<Tree>)
    requires KidsRep(st, kids, cs) && |kids| == |cs| && i <= j <= |cs| && KidsRep(st', kx, cx) && |kx| == |cx|
    requires var rest := KidsFoot(st, kids, cs) - KidsFoot(st, kids[i..j], cs[i..j]);
             Agree(st, st', rest) && KidsFoot(st', kx, cx) !! rest
    ensures KidsRep(st', kids[..i] + kx + kids[j..], cs[..i] + cx + cs[j..])
    ensures KidsFoot(st', kids[..i] + kx + kids[j..], cs[..i] + cx + cs[j..]) ==
            KidsFoot(st, kids, cs) - KidsFoot(st, kids[i..j], cs[i..j]) + KidsFoot(st', kx, cx)
  {
    hide KidsRep, KidsFoot, Rep, Foot;
    KidsMiddle(st, kids, cs, i, j);
    KidsFrame(st, st', kids[..i], cs[..i]);
    KidsFrame(st, st', kids[j..], cs[j..]);
    KidsJoin(st', kids[..i], cs[..i], kx, cx);
    KidsJoin(st', kids[..i] + kx, cs[..i] + cx, kids[j..], cs[j..]);
  }

  lemma {:induction false} KidsTwo(st: Store, k0: nat, c0: Tree, k1: nat, c1: Tree)
    ensures KidsFoot(st, [k0, k1], [c0, c1]) == Foot(st, k0, c0) + Foot(st, k1, c1)
    ensures KidsRep(st, [k0, k1], [c0, c1]) <==>
              Rep(st, k0, c0) && Rep(st, k1, c1) && Foot(st, k0, c0) !! Foot(st, k1, c1)
  {
    KidsOne(st, k0, c0);
    KidsOne(st, k1, c1);
    KidsJoin(st, [k0], [c0], [k1], [c1]);
    assert [k0] + [k1] == [k0, k1] && [c0] + [c1] == [c0, c1];
  }

  // ---- positions ----

  // The block reached from b by following child indices p.
  ghost function BlockAt(st: Store, b: nat, p: seq<nat>): nat
    decreases |p|
  {
    if p == [] then b
    else if b in st && st[b].InnerRec? && p[0] < |st[b].kids| then BlockAt(st, st[b].kids[p[0]], p[1..])
    else 0
  }

  lemma {:induction false} RepAt(st: Store, b: nat, t: Tree, p: seq<nat>)
    requires Rep(st, b, t) && Along(t, p)
    ensures Rep(st, BlockAt(st, b, p), At(t, p))
    ensures Foot(st, BlockAt(st, b, p), At(t, p)) <= Foot(st, b, t)
    ensures p != [] ==> b !in Foot(st, BlockAt(st, b, p), At(t, p))
    decreases |p|
  {
    if p != [] {
      var k := st[b].kids[p[0]];
      RepAt(st, k, t.cs[p[0]], p[1..]);
      assert Foot(st, k, t.cs[p[0]]) <= KidsFoot(st, st[b].kids, t.cs);
    }
  }

  lemma {:induction false} BlockAtSnoc(st: Store, b: nat, t: Tree, p: seq<nat>, i: nat)
    requires Rep(st, b, t) && Along(t, p + [i])
    ensures Along(t, p) && At(t, p).Node? && i < |At(t, p).cs|
    ensures var y := BlockAt(st, b, p);
            && y in st && st[y].InnerRec? && st[y].ks == At(t, p).ks && |st[y].kids| == |At(t, p).cs|
            && BlockAt(st, b, p + [i]) == st[y].kids[i]
    decreases |p|
  {
    AtSnoc(t, p, i);
    var q := p + [i];
    if p == [] {
      assert q[1..] == [];
    } else {
      assert q[1..] == p[1..] + [i];
      BlockAtSnoc(st, st[b].kids[p[0]], t.cs[p[0]], p[1..], i);
    }
  }

  lemma {:induction false} KidFoot(st: Store, b: nat, t: Tree, i: nat)
    requires Rep(st, b, t) && t.Node? && i < |t.cs|
    ensures b in st && st[b].InnerRec? && |st[b].kids| == |t.cs| && b in Foot(st, b, t)
    ensures Rep(st, st[b].kids[i], t.cs[i]) && Foot(st, st[b].kids[i], t.cs[i]) <= Foot(st, b, t) - {b}
  {
    assert Foot(st, st[b].kids[i], t.cs[i]) <= KidsFoot(st, st[b].kids, t.cs);
  }

  // A write confined to one child's subtree replaces that child.
  lemma {:induction false} KidWrite(st: Store, st': Store, b: nat, t: Tree, i: nat, c: Tree)
    requires Rep(st, b, t) && t.Node? && i < |t.cs| == |st[b].kids|
    requires var k := st[b].kids[i]; var rest := Foot(st, b, t) - Foot(st, k, t.cs[i]);
             Agree(st, st', rest) && Rep(st', k, c) && Foot(st', k, c) !! rest
    ensures Rep(st', b, Node(t.ks, t.cs[i := c]))
    ensures var k := st[b].kids[i];
            Foot(st', b, Node(t.ks, t.cs[i := c])) == Foot(st, b, t) - Foot(st, k, t.cs[i]) + Foot(st', k, c)
    ensures st'[b] == st[b]
  {
    hide KidsRep, KidsFoot;
    var kids, cs := st[b].kids, t.cs;
    KidsSplit(st, kids, cs, i);
    assert b !in Foot(st, kids[i], cs[i]);
    KidsFrame(st, st', kids[..i], cs[..i]);
    KidsFrame(st, st', kids[i + 1..], cs[i + 1..]);
    var cs' := cs[i := c];
    assert cs'[..i] == cs[..i] && cs'[i + 1..] == cs[i + 1..];
    KidsSplit(st', kids, cs', i);
  }

  // A write confined to the subtree at p replaces that subtree and nothing else.
  lemma {:induction false} WriteRep(st: Store, st': Store, b: nat, t: Tree, p: seq<nat>, s: Tree)
    requires Rep(st, b, t) && Along(t, p)
    requires var y := BlockAt(st, b, p); var rest := Foot(st, b, t) - Foot(st, y, At(t, p));
             Agree(st, st', rest) && Rep(st', y, s) && Foot(st', y, s) !! rest
    ensures Rep(st', b, Replace(t, p, s))
    ensures var y := BlockAt(st, b, p);
            Foot(st', b, Replace(t, p, s)) == Foot(st, b, t) - Foot(st, y, At(t, p)) + Foot(st', y, s)
    decreases |p|
  {
    if p != [] {
      var i := p[0];
      var k := st[b].kids[i];
      RepAt(st, k, t.cs[i], p[1..]);
      KidsSplit(st, st[b].kids, t.cs, i);
      WriteRep(st, st', k, t.cs[i], p[1..], s);
      KidWrite(st, st', b, t, i, Replace(t.cs[i], p[1..], s));
    }
  }

  // Positions at or above p still name the same blocks after such a write.
  lemma {:induction false} WriteBlockAt(st: Store, st': Store, b: nat, t: Tree, p: seq<nat>, i: nat)
    requires Rep(st, b, t) && Along(t, p) && i <= |p|
    requires Agree(st, st', Foot(st, b, t) - Foot(st, BlockAt(st, b, p), At(t, p)))
    ensures BlockAt(st', b, p[..i]) == BlockAt(st, b, p[..i])
    decreases |p|
  {
    if i > 0 {
      var k := st[b].kids[p[0]];
      KidFoot(st, b, t, p[0]);
      hide Rep, Foot;
      RepAt(st, b, t, p);
      RepAt(st, k, t.cs[p[0]], p[1..]);
      WriteBlockAt(st, st', k, t.cs[p[0]], p[1..], i - 1);
      assert p[..i][1..] == p[1..][..i - 1];
    }
  }
}
