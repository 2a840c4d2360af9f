// Sets of block numbers as ranges: an entry is a range, its key the first block and its data
// the block after the last one.
module RangeModel {
  import opened TreeModel
  import opened TreeSearch
  import opened TreeInsert
  import opened TreeRemove
  import opened TreeUpdate

  datatype Range = Range(start: nat, end: nat)

  predicate Empty(r: Range) { r.start == r.end }

  // block_in_range
  predicate InRange(r: Range, x: nat) { r.start <= x < r.end }

  predicate Covers(e: Entry, x: nat) { e.key <= x < e.data }

  // Block x is in one of the ranges.
  ghost predicate Has(C: seq<Entry>, x: nat)
  {
    exists i :: 0 <= i < |C| && Covers(C[i], x)
  }

  ghost predicate Gap(C: seq<Entry>, i: nat, j: nat)
    requires i < |C| && j < |C|
  {
    C[i].data < C[j].key
  }

  // Between updates: sorted, non-empty, disjoint and not even adjacent.
  ghost predicate Canonical(C: seq<Entry>)
  {
    && (forall i :: 0 <= i < |C| ==> 0 < C[i].key < C[i].data)
    && (forall i, j :: 0 <= i < j < |C| ==> Gap(C, i, j))
  }

  ghost predicate GapOrTail(C: seq<Entry>, i: nat, j: nat)
    requires i < |C| && j < |C|
  {
    C[i].key < C[j].key && (C[i].data < C[j].key || C[i].data == C[j].data)
  }

  // Also while an update is under way: a range may be the end part of the one before it.
  ghost predicate Nested(C: seq<Entry>)
  {
    && (forall i :: 0 <= i < |C| ==> 0 < C[i].key < C[i].data)
    && (forall i, j :: 0 <= i < j < |C| ==> GapOrTail(C, i, j))
  }

  lemma CanonicalNested(C: seq<Entry>)
    requires Canonical(C)
    ensures Nested(C) && Sorted(C)
  {
    forall i, j | 0 <= i < j < |C|
      ensures Le(C, i, j) && GapOrTail(C, i, j)
    {
      assert Gap(C, i, j);
    }
  }

  // Answer to "first block at or after min that is (not) in the set", 0 for none.
  ghost predicate NextBlock(has: iset<nat>, min: nat, inSet: bool, r: nat)
  {
    if inSet && r == 0
    then forall x :: x >= min ==> x !in has
    else r >= min && (r in has <==> inSet) && forall x :: min <= x < r ==> (x in has <==> !inSet)
  }

  ghost function BlocksOf(C: seq<Entry>): iset<nat>
  {
    iset x: nat | Has(C, x)
  }

  // The one range a search for min looks at.
  function Looked(C: seq<Entry>, pos: nat, min: nat): Range
    requires pos < |C| || C == []
  {
    if C == [] then Range(0, 0)
    else if C[pos].data > min then Range(C[pos].key, C[pos].data)
    else if pos + 1 < |C| then Range(C[pos + 1].key, C[pos + 1].data)
    else Range(0, 0)
  }

  function Answer(r: Range, min: nat, inSet: bool): nat
  {
    if InRange(r, min) == inSet then min else if !inSet then r.end else r.start
  }

  lemma {:induction false} LookedNext(C: seq<Entry>, pos: nat, min: nat, inSet: bool)
    requires Nested(C) && AtFloor(C, pos, min)
    ensures NextBlock(BlocksOf(C), min, inSet, Answer(Looked(C, pos, min), min, inSet))
  {
    var r, has := Looked(C, pos, min), BlocksOf(C);
    if C != [] {
      assert FloorAt(C, pos, min, 0);
      forall k | 0 <= k < |C|
        ensures k < pos ==> C[k].data <= C[pos].data && C[pos].key <= min
        ensures k > pos ==> C[k].key > min && C[k].key > C[pos].key && (k > pos + 1 ==> C[k].key > C[pos + 1].key)
        ensures C[pos].data > min ==> !Covers(C[k], C[pos].data)
      {
        assert FloorAt(C, pos, min, k);
        assert k < pos ==> GapOrTail(C, k, pos);
        assert k > pos ==> GapOrTail(C, pos, k);
        assert k > pos + 1 ==> GapOrTail(C, pos + 1, k);
      }
      if C[pos].key <= min < C[pos].data {
        forall x | min <= x < C[pos].data
          ensures x in has
        {
          assert Covers(C[pos], x);
        }
      } else if r.start < r.end {
        assert Covers(C[if C[pos].data > min then pos else pos + 1], r.start);
      }
    }
  }

  // ---- changing one range ----

  // Replacing range i: the blocks it covered go, those of e come.
  lemma {:induction false} SwapBlocks(C: seq<Entry>, i: nat, e: Entry, x: nat)
    requires i < |C| && forall k :: 0 <= k < |C| && k != i && Covers(C[k], x) ==> !Covers(C[i], x)
    ensures Has(C[i := e], x) <==> Covers(e, x) || (Has(C, x) && !Covers(C[i], x))
  {
    var D := C[i := e];
    if Covers(e, x) {
      assert Covers(D[i], x);
    }
    if Has(C, x) && !Covers(C[i], x) {
      var k :| 0 <= k < |C| && Covers(C[k], x);
      assert Covers(D[k], x);
    }
    if Has(D, x) && !Covers(e, x) {
      var k :| 0 <= k < |D| && Covers(D[k], x);
      assert Covers(C[k], x);
    }
  }

  lemma {:induction false} Disjoint(C: seq<Entry>, i: nat, k: nat, x: nat)
    requires Canonical(C) && i < |C| && k < |C| && k != i && Covers(C[k], x)
    ensures !Covers(C[i], x)
  {
    assert if i < k then Gap(C, i, k) else Gap(C, k, i);
  }

  lemma {:induction false} SwapRange(C: seq<Entry>, i: nat, e: Entry)
    requires Canonical(C) && i < |C| && 0 < e.key < e.data
    requires (i > 0 ==> C[i - 1].data < e.key) && (i + 1 < |C| ==> e.data < C[i + 1].key)
    ensures Canonical(C[i := e])
            && forall x: nat :: Has(C[i := e], x) <==> Covers(e, x) || (Has(C, x) && !Covers(C[i], x))
  {
    var D := C[i := e];
    forall j, k | 0 <= j < k < |D|
      ensures Gap(D, j, k)
    {
      assert Gap(C, j, k);
      assert k == i && j < i - 1 ==> Gap(C, j, i - 1);
      assert j == i && k > i + 1 ==> Gap(C, i + 1, k);
    }
    forall x: nat
      ensures Has(D, x) <==> Covers(e, x) || (Has(C, x) && !Covers(C[i], x))
    {
      forall k | 0 <= k < |C| && k != i && Covers(C[k], x)
        ensures !Covers(C[i], x)
      {
        Disjoint(C, i, k, x);
      }
      SwapBlocks(C, i, e, x);
    }
  }

  lemma {:induction false} DropBlocks(C: seq<Entry>, i: nat, x: nat)
    requires i < |C|
    ensures Has(C, x) <==> Has(RemoveAt(C, i), x) || Covers(C[i], x)
  {
    var D := RemoveAt(C, i);
    if Has(C, x) {
      var k :| 0 <= k < |C| && Covers(C[k], x);
      assert k != i ==> Covers(D[if k < i then k else k - 1], x);
    }
    if Has(D, x) {
      var k :| 0 <= k < |D| && Covers(D[k], x);
      assert Covers(C[if k < i then k else k + 1], x);
    }
  }

  lemma {:induction false} DropRange(C: seq<Entry>, i: nat)
    requires Canonical(C) && i < |C|
    ensures Canonical(RemoveAt(C, i)) && forall x: nat :: Has(RemoveAt(C, i), x) <==> Has(C, x) && !Covers(C[i], x)
  {
    var D := RemoveAt(C, i);
    forall j, k | 0 <= j < k < |D|
      ensures Gap(D, j, k)
    {
      assert Gap(C, if j < i then j else j + 1, if k < i then k else k + 1);
    }
    forall x: nat
      ensures Has(D, x) <==> Has(C, x) && !Covers(C[i], x)
    {
      DropBlocks(C, i, x);
      if Has(D, x) {
        var k :| 0 <= k < |D| && Covers(D[k], x);
        Disjoint(C, i, if k < i then k else k + 1, x);
      }
    }
  }

  lemma {:induction false} PutGap(C: seq<Entry>, i: nat, e: Entry, j: nat, k: nat)
    requires Canonical(C) && i <= |C| && 0 < e.key < e.data && j < k <= |C|
    requires (i > 0 ==> C[i - 1].data < e.key) && (i < |C| ==> e.data < C[i].key)
    ensures Gap(InsertAt(C, i, e), j, k)
  {
    if k < i {
      assert Gap(C, j, k);
    } else if k == i {
      assert j < i - 1 ==> Gap(C, j, i - 1);
    } else if j < i {
      assert Gap(C, j, k - 1);
    } else if j == i {
      assert k - 1 > i ==> Gap(C, i, k - 1);
    } else {
      assert Gap(C, j - 1, k - 1);
    }
  }

  lemma {:induction false} PutRange(C: seq<Entry>, i: nat, e: Entry)
    requires Canonical(C) && i <= |C| && 0 < e.key < e.data
    requires (i > 0 ==> C[i - 1].data < e.key) && (i < |C| ==> e.data < C[i].key)
    ensures Canonical(InsertAt(C, i, e)) && forall x: nat :: Has(InsertAt(C, i, e), x) <==> Has(C, x) || Covers(e, x)
  {
    var D := InsertAt(C, i, e);
    forall j, k | 0 <= j < k < |D|
      ensures Gap(D, j, k)
    {
      PutGap(C, i, e, j, k);
    }
    assert RemoveAt(D, i) == C;
    forall x: nat
      ensures Has(D, x) <==> Has(C, x) || Covers(e, x)
    {
      DropBlocks(D, i, x);
    }
  }

  // ---- adding [a, b) ----

  ghost predicate Free(C: seq<Entry>, a: nat, b: nat)
  {
    forall x: nat :: a <= x < b ==> !Has(C, x)
  }

  lemma {:induction false} FreeRange(C: seq<Entry>, a: nat, b: nat, i: nat)
    requires Canonical(C) && Free(C, a, b) && i < |C| && a < b
    ensures C[i].data <= a || C[i].key >= b
  {
    if C[i].data > a && C[i].key < b {
      var x := if C[i].key >= a then C[i].key else a;
      assert Covers(C[i], x) && Has(C, x);
      assert false;
    }
  }

  // The ranges next to [a, b), seen from a search for a - 1.
  lemma {:induction false} AddPlace(C: seq<Entry>, pos: nat, a: nat, b: nat)
    requires Canonical(C) && C != [] && 0 < a < b && Free(C, a, b) && AtFloor(C, pos, a - 1)
    ensures pos < |C|
    ensures if C[pos].key >= a then pos == 0 && C[0].key >= b
            else C[pos].data <= a && (pos + 1 < |C| ==> C[pos + 1].key >= b)
  {
    FreeRange(C, a, b, pos);
    assert FloorAt(C, pos, a - 1, 0);
    if pos + 1 < |C| {
      FreeRange(C, a, b, pos + 1);
      assert FloorAt(C, pos, a - 1, pos + 1) && Gap(C, pos, pos + 1);
    }
  }

  // No range touches [a, b) when the neighbours found by that search do not.
  lemma {:induction false} NoneTouch(C: seq<Entry>, pos: nat, a: nat, b: nat, i: nat)
    requires Canonical(C) && C != [] && 0 < a < b && Free(C, a, b) && AtFloor(C, pos, a - 1) && i < |C|
    requires C[pos].data != a && C[pos].key != b && (pos + 1 < |C| ==> C[pos + 1].key != b)
    ensures C[i].data != a && C[i].key != b
  {
    AddPlace(C, pos, a, b);
    assert i < pos ==> Gap(C, i, pos);
    assert i > pos ==> Gap(C, pos, i);
    assert i > pos + 1 ==> Gap(C, pos + 1, i);
  }

  lemma {:induction false} InsertPlace(C: seq<Entry>, p: nat, a: nat, b: nat)
    requires Canonical(C) && 0 < a < b && Free(C, a, b) && AtCeil(C, p, a)
    requires forall i :: 0 <= i < |C| ==> C[i].data != a && C[i].key != b
    ensures (p > 0 ==> C[p - 1].data < a) && (p < |C| ==> b < C[p].key)
  {
    if p > 0 {
      FreeRange(C, a, b, p - 1);
      assert CeilAt(C, p, a, p - 1);
    }
    if p < |C| {
      FreeRange(C, a, b, p);
      assert CeilAt(C, p, a, p);
    }
  }

  // Two ranges joined over the gap between them: M overlaps, and is read as the joined set.
  lemma {:induction false} JoinRanges(C: seq<Entry>, i: nat, M: seq<Entry>)
    requires Canonical(C) && i + 1 < |C| && M == C[i := Entry(C[i].key, C[i + 1].data)]
    ensures Nested(M) && Canonical(RemoveAt(M, i + 1))
    ensures forall x: nat :: Has(M, x) <==> Has(C, x) || C[i].data <= x < C[i + 1].key
    ensures forall x: nat :: Has(RemoveAt(M, i + 1), x) <==> Has(M, x)
  {
    var e := Entry(C[i].key, C[i + 1].data);
    assert Gap(C, i, i + 1);
    var D := RemoveAt(C, i + 1);
    DropRange(C, i + 1);
    assert i + 2 < |C| ==> Gap(C, i + 1, i + 2);
    assert i > 0 ==> Gap(C, i - 1, i);
    SwapRange(D, i, e);
    assert RemoveAt(M, i + 1) == D[i := e];
    JoinNested(C, i, M);
    hide Canonical, Nested;
    forall x: nat
      ensures Has(D[i := e], x) <==> Has(M, x)
      ensures Has(M, x) <==> Has(C, x) || C[i].data <= x < C[i + 1].key
    {
      DropBlocks(M, i + 1, x);
      DropBlocks(C, i + 1, x);
      assert Covers(M[i], x) ==> Has(M, x);
    }
  }

  lemma {:induction false} JoinNested(C: seq<Entry>, i: nat, M: seq<Entry>)
    requires Canonical(C) && i + 1 < |C| && M == C[i := Entry(C[i].key, C[i + 1].data)]
    ensures Nested(M)
  {
    assert Gap(C, i, i + 1);
    forall j, k | 0 <= j < k < |M|
      ensures GapOrTail(M, j, k)
    {
      assert Gap(C, j, k);
      assert j == i && k > i + 1 ==> Gap(C, i + 1, k);
    }
  }

  // ---- removing [a, b) ----

  // The range that holds [a, b) is the one a search for a finds.
  lemma {:induction false} HoldsRange(C: seq<Entry>, pos: nat, a: nat, b: nat)
    requires Canonical(C) && a < b && (forall x: nat :: a <= x < b ==> Has(C, x)) && AtFloor(C, pos, a)
    ensures pos < |C| && C[pos].key <= a && b <= C[pos].data
  {
    assert Has(C, a);
    var i :| 0 <= i < |C| && Covers(C[i], a);
    FloorIs(C, pos, a, i);
    EndNotIn(C, i);
  }

  lemma {:induction false} FloorIs(C: seq<Entry>, pos: nat, a: nat, i: nat)
    requires Canonical(C) && AtFloor(C, pos, a) && i < |C| && Covers(C[i], a)
    ensures pos == i
  {
    assert FloorAt(C, pos, a, i);
    assert i < pos ==> Gap(C, i, pos);
    assert i > pos ==> Gap(C, pos, i);
  }

  lemma {:induction false} EndNotIn(C: seq<Entry>, i: nat)
    requires Canonical(C) && i < |C|
    ensures !Has(C, C[i].data)
  {
    forall k | 0 <= k < |C|
      ensures !Covers(C[k], C[i].data)
    {
      assert k < i ==> Gap(C, k, i);
      assert k > i ==> Gap(C, i, k);
    }
  }

  // A range cut in two: M overlaps, and is read as the old set.
  lemma {:induction false} CutRange(C: seq<Entry>, i: nat, a: nat, b: nat, M: seq<Entry>)
    requires Canonical(C) && i < |C| && C[i].key < a < b < C[i].data && M == InsertAt(C, i + 1, Entry(b, C[i].data))
    ensures Nested(M) && forall x: nat :: Has(M, x) <==> Has(C, x)
    ensures Canonical(M[i := Entry(C[i].key, a)])
            && forall x: nat :: Has(M[i := Entry(C[i].key, a)], x) <==> Has(C, x) && !(a <= x < b)
  {
    var l, r := Entry(C[i].key, a), Entry(b, C[i].data);
    assert i > 0 ==> Gap(C, i - 1, i);
    assert i + 1 < |C| ==> Gap(C, i, i + 1);
    SwapRange(C, i, l);
    var D := C[i := l];
    PutRange(D, i + 1, r);
    assert InsertAt(D, i + 1, r) == M[i := l];
    CutNested(C, i, b, M);
    hide Canonical, Nested;
    assert RemoveAt(M, i + 1) == C;
    var E := M[i := l];
    forall x: nat
      ensures Has(M, x) <==> Has(C, x)
      ensures Has(E, x) <==> Has(C, x) && !(a <= x < b)
    {
      DropBlocks(M, i + 1, x);
      assert Covers(C[i], x) ==> Has(C, x);
      assert Has(D, x) <==> Covers(l, x) || (Has(C, x) && !Covers(C[i], x));
    }
  }

  lemma {:induction false} CutNested(C: seq<Entry>, i: nat, b: nat, M: seq<Entry>)
    requires Canonical(C) && i < |C| && C[i].key < b < C[i].data && M == InsertAt(C, i + 1, Entry(b, C[i].data))
    ensures Nested(M)
  {
    forall j, k | 0 <= j < k < |M|
      ensures GapOrTail(M, j, k)
    {
      if k <= i {
        assert Gap(C, j, k);
      } else if k == i + 1 {
        assert j < i ==> Gap(C, j, i);
      } else if j <= i {
        assert Gap(C, j, k - 1);
      } else if j == i + 1 {
        assert Gap(C, i, k - 1);
      } else {
        assert Gap(C, j - 1, k - 1);
      }
    }
  }

  // Where a new range start goes among distinct keys.
  lemma {:induction false} CutPlace(C: seq<Entry>, i: nat, b: nat, p: nat)
    requires Canonical(C) && i < |C| && C[i].key < b < C[i].data && AtCeil(C, p, b)
    ensures p == i + 1
  {
    assert CeilAt(C, p, b, i);
    if p < |C| {
      assert CeilAt(C, p, b, p);
      assert p > i + 1 ==> Gap(C, i, p);
    }
    if i + 1 < |C| {
      assert CeilAt(C, p, b, i + 1) && Gap(C, i, i + 1);
    }
  }

  lemma {:induction false} SameRange(C: seq<Entry>, i: nat, j: nat)
    requires Nested(C) && i < |C| && j < |C| && C[i].key == C[j].key
    ensures i == j
  {
    assert i < j ==> GapOrTail(C, i, j);
    assert j < i ==> GapOrTail(C, j, i);
  }

  lemma {:induction false} NestedSorted(C: seq<Entry>)
    requires Nested(C)
    ensures Sorted(C)
  {
    forall i, j | 0 <= i < j < |C|
      ensures Le(C, i, j)
    {
      assert GapOrTail(C, i, j);
    }
  }

  ghost function BlocksIn(r: Range): iset<nat>
  {
    iset x: nat | InRange(r, x)
  }

  // A set that is a single range outside the tree.
  lemma InitialNext(init: Range, min: nat, inSet: bool)
    requires init == Range(0, 0) || 0 < init.start < init.end
    ensures NextBlock(BlocksIn(init), min, inSet, Answer(if init.end <= min then Range(0, 0) else init, min, inSet))
  {
  }

  lemma HasNone(C: seq<Entry>)
    ensures C == [] ==> forall x: nat :: !Has(C, x)
  {
  }

  lemma NestedPositive(C: seq<Entry>)
    requires Nested(C)
    ensures forall i :: 0 <= i < |C| ==> 0 < C[i].key < C[i].data
  {
  }

  lemma {:induction false} NestedForemost(C: seq<Entry>, e: Entry)
    requires Nested(C)
    ensures Foremost(C, e)
  {
    forall i | 0 < i < |C|
      ensures C[i - 1].key < C[i].key
    {
      assert GapOrTail(C, i - 1, i);
    }
  }

  lemma CanonicalPositive(C: seq<Entry>, i: nat)
    requires Canonical(C) && i < |C|
    ensures 0 < C[i].key < C[i].data
  {
  }

  lemma CanonicalNext(C: seq<Entry>, i: nat)
    requires Canonical(C) && i < |C|
    ensures (i > 0 ==> C[i - 1].data < C[i].key) && (i + 1 < |C| ==> C[i].data < C[i + 1].key)
  {
    assert i > 0 ==> Gap(C, i - 1, i);
    assert i + 1 < |C| ==> Gap(C, i, i + 1);
  }

  lemma CoversHas(C: seq<Entry>, i: nat)
    requires i < |C|
    ensures forall x: nat :: Covers(C[i], x) ==> Has(C, x)
  {
  }

  lemma CeilIn(C: seq<Entry>, p: nat, k: nat)
    requires AtCeil(C, p, k)
    ensures p <= |C|
  {
  }

  lemma HasSome(C: seq<Entry>, x: nat)
    ensures Has(C, x) ==> C != []
  {
  }
}
