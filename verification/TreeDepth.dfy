// How deep a tree can get.
module TreeDepth {
  import opened TreeModel
  import opened TreeSteps
  import opened RangeModel

  const BLOCK_TREE_MAX_DEPTH: nat := 9

  function Pow(b: nat, e: nat): nat
  {
    if e == 0 then 1 else b * Pow(b, e - 1)
  }

  // Least number of entries below a node that is not the root.
  function SubMin(c: Caps, d: nat): nat
    requires d > 0
  {
    c.leaf / 2 * Pow(c.inner / 2 + 1, d - 1)
  }

  // Least number of entries of a tree of depth d.
  function TreeMin(c: Caps, d: nat): nat
  {
    if d <= 1 then 0 else 2 * SubMin(c, d - 1)
  }

  lemma {:induction false} MulMono(a: nat, b: nat, m: nat)
    requires a <= b
    ensures a * m <= b * m
  {
    assert b * m == a * m + (b - a) * m;
  }

  lemma {:induction false} FlatMin(cs: seq<Tree>, c: Caps, d: nat)
    requires d > 0 && forall i :: 0 <= i < |cs| ==> Level(cs[i], d) && Filled(cs[i], c, false)
    ensures |Flat(cs)| >= |cs| * SubMin(c, d)
    decreases cs, 0
  {
    if cs != [] {
      SubtreeMin(cs[0], c, d);
      FlatMin(cs[1..], c, d);
      assert |cs| * SubMin(c, d) == SubMin(c, d) + |cs[1..]| * SubMin(c, d);
    }
  }

  lemma {:induction false} SubtreeMin(t: Tree, c: Caps, d: nat)
    requires d > 0 && Level(t, d) && Filled(t, c, false)
    ensures |Contents(t)| >= SubMin(c, d)
    decreases t, 1
  {
    if t.Node? {
      FlatMin(t.cs, c, d - 1);
      MulMono(c.inner / 2 + 1, |t.cs|, SubMin(c, d - 1));
      SubMinStep(c, d - 1);
    }
  }

  lemma {:induction false} SubMinStep(c: Caps, d: nat)
    requires d > 0
    ensures SubMin(c, d + 1) == (c.inner / 2 + 1) * SubMin(c, d)
  {
    var l, m, p := c.leaf / 2, c.inner / 2 + 1, Pow(c.inner / 2 + 1, d - 1);
    assert Pow(m, d) == m * p;
    assert l * (m * p) == m * (l * p);
  }

  // Every tree of depth d >= 2 has at least 2 * leafmin * (innermin + 1)^(d - 2) entries.
  lemma {:induction false} EntriesAtLeast(t: Tree, c: Caps, d: nat)
    requires Good(t, d, c)
    ensures |Contents(t)| >= TreeMin(c, d)
    ensures d >= 2 ==> TreeMin(c, d) == 2 * (c.leaf / 2 * Pow(c.inner / 2 + 1, d - 2))
  {
    if t.Node? {
      FlatMin(t.cs, c, d - 1);
      MulMono(2, |t.cs|, SubMin(c, d - 1));
    }
  }

  lemma {:induction false} SubMinGrows(c: Caps, d: nat, e: nat)
    requires CapsOk(c) && 0 < d < e
    ensures SubMin(c, e) >= 2 * SubMin(c, d) && SubMin(c, d) >= 1
    decreases e
  {
    PowPositive(c.inner / 2 + 1, d - 1);
    MulMono(1, c.leaf / 2, Pow(c.inner / 2 + 1, d - 1));
    SubMinStep(c, e - 1);
    MulMono(2, c.inner / 2 + 1, SubMin(c, e - 1));
    if d < e - 1 {
      SubMinGrows(c, d, e - 1);
    }
  }

  lemma {:induction false} PowPositive(b: nat, e: nat)
    requires b > 0
    ensures Pow(b, e) >= 1
  {
    if e > 0 {
      PowPositive(b, e - 1);
      MulMono(1, b, Pow(b, e - 1));
    }
  }

  lemma {:induction false} TreeMinStep(c: Caps, d: nat)
    ensures TreeMin(c, 1) == 0 && TreeMin(c, 2) == c.leaf / 2 * 2
    ensures d >= 2 ==> TreeMin(c, d + 1) == TreeMin(c, d) * (c.inner / 2 + 1)
  {
    assert Pow(c.inner / 2 + 1, 0) == 1;
    if d >= 2 {
      SubMinStep(c, d - 1);
    }
  }

  // The loop of block_tree_check_config.
  method MinEntryCount(c: Caps) returns (n: nat)
    requires CapsOk(c)
    ensures n == TreeMin(c, BLOCK_TREE_MAX_DEPTH)
  {
    hide TreeMin;
    n := 0;
    TreeMinStep(c, 0);
    var depth := 1;
    while depth <= BLOCK_TREE_MAX_DEPTH
      invariant 1 <= depth <= BLOCK_TREE_MAX_DEPTH + 1 && (if depth == 1 then n == 0 else n == TreeMin(c, depth - 1))
    {
      if depth == 1 {
        n := 0;
      } else if depth == 2 {
        n := c.leaf / 2 * 2;
      } else {
        TreeMinStep(c, depth - 1);
        n := n * (c.inner / 2 + 1);
      }
      depth := depth + 1;
    }
  }

  // A configuration that passes the check never needs a longer path.
  lemma {:induction false} DepthBound(t: Tree, c: Caps, d: nat, needed: nat)
    requires CapsOk(c) && Good(t, d, c) && 0 < needed <= TreeMin(c, BLOCK_TREE_MAX_DEPTH) && |Contents(t)| <= needed
    ensures d <= BLOCK_TREE_MAX_DEPTH
  {
    EntriesAtLeast(t, c, d);
    if d > BLOCK_TREE_MAX_DEPTH {
      SubMinGrows(c, BLOCK_TREE_MAX_DEPTH - 1, d - 1);
    }
  }

  lemma {:induction false} RangeEnd(C: seq<Entry>, i: nat)
    requires Canonical(C) && i < |C|
    ensures C[i].data >= 2 * i + 2
  {
    if i > 0 {
      RangeEnd(C, i - 1);
      assert Gap(C, i - 1, i);
    }
  }

  // A set of blocks of a device with n blocks has at most (n + 1) / 2 ranges, so its tree stays
  // within the depth limit if the configuration passes the check for that device.
  lemma {:induction false} SetDepthBound(t: Tree, c: Caps, d: nat, n: nat)
    requires CapsOk(c) && Good(t, d, c) && Canonical(Contents(t))
             && forall i :: 0 <= i < |Contents(t)| ==> Contents(t)[i].data <= n
    requires 0 < (n + 1) / 2 <= TreeMin(c, BLOCK_TREE_MAX_DEPTH)
    ensures d <= BLOCK_TREE_MAX_DEPTH
  {
    var C := Contents(t);
    if C != [] {
      RangeEnd(C, |C| - 1);
    }
    DepthBound(t, c, d, (n + 1) / 2);
  }
}
