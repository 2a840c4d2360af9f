// The block set of block_set.c: ranges of block numbers kept in a B+ tree.
module BlockSets {
  import opened TreeModel
  import opened TreeSteps
  import opened TreeSearch
  import opened TreePath
  import opened TreeLinks
  import opened TreeInsert
  import opened TreeRemove
  import opened TreeUpdate
  import opened TreeBorrow
  import opened RangeModel
  import opened BlockTrees

  // block_range_init_from_path
  function RangeOf(path: Path): Range { Range(PathKey(path), path.data) }

  class BlockSet {
    const ranges: BlockTree
    var initial: Range  // the whole set while the tree has no root, else empty

    // The set can be searched. This holds between updates, at the points inside an update where the
    // ranges overlap, and where the tree allocates blocks while a range is only pending.
    ghost predicate Readable()
      reads this, ranges
    {
      && ranges.Readable() && Nested(Contents(ranges.tree))
      && (initial == Range(0, 0) || (0 < initial.start < initial.end && Contents(ranges.tree) == []))
    }

    // No operation of the tree is under way.
    ghost predicate Settled()
      reads this, ranges
    {
      Readable() && ranges.Valid()
    }

    ghost predicate Valid()
      reads this, ranges
    {
      Settled() && Canonical(Contents(ranges.tree))
    }

    // The blocks in the set.
    ghost function Blocks(): iset<nat>
      reads this, ranges
    {
      iset x: nat | Has(Contents(ranges.tree), x) || InRange(initial, x)
    }

    // block_set_find_next_block
    method FindNextBlock(min: nat, inSet: bool) returns (r: nat)
      requires Readable()
      ensures NextBlock(Blocks(), min, inSet, r)
    {
      hide Has, NextBlock, Nested, AtFloor, Contents, BlockTree.Valid, BlockTree.Readable;
      ghost var C := Contents(ranges.tree);
      var path, pos := ranges.Floor(min);
      var range := RangeOf(path);
      if !Empty(range) && range.end <= min {
        path := ranges.Successor(path, pos);
        range := RangeOf(path);
      }
      if Empty(range) {
        range := initial;
        if range.end <= min {
          range := Range(0, 0);
        }
      }
      r := Answer(range, min, inSet);
      if C != [] {
        NestedPositive(C);
        LookedNext(C, pos, min, inSet);
        assert Blocks() == BlocksOf(C);
      } else {
        InitialNext(initial, min, inSet);
        HasNone(C);
        assert Blocks() == BlocksIn(initial);
      }
    }

    // block_set_init
    constructor (caps: Caps)
      requires CapsOk(caps)
      ensures Valid() && fresh(ranges) && Blocks() == iset{} && initial == Range(0, 0)
    {
      ranges := new BlockTree(caps);
      initial := Range(0, 0);
    }

    // block_set_find_next_range: the first stretch of blocks in the set at or after min.
    method FindNextRange(min: nat) returns (r: Range)
      requires Readable()
      ensures Empty(r) ==> forall x :: x >= min ==> x !in Blocks()
      ensures !Empty(r) ==> 0 < r.start && min <= r.start < r.end && r.end !in Blocks()
      ensures !Empty(r) ==> forall x :: r.start <= x < r.end ==> x in Blocks()
      ensures !Empty(r) ==> forall x :: min <= x < r.start ==> x !in Blocks()
    {
      var start := FindNextBlock(min, true);
      if start == 0 {
        return Range(0, 0);
      }
      var end := FindNextBlock(start, false);
      r := Range(start, end);
    }

    // block_set_block_in_set
    method Contains(x: nat) returns (yes: bool)
      requires Readable()
      ensures yes <==> if x == 0 then Blocks() == iset{} else x in Blocks()
    {
      var r := FindNextBlock(x, true);
      yes := r == x;
      if x == 0 && r == 0 {
        assert forall y: nat :: y !in Blocks();
      }
    }

    // block_set_range_in_set and block_set_range_not_in_set
    method RangeInSet(r: Range) returns (all: bool, none: bool)
      requires Readable() && 0 < r.start < r.end
      ensures all <==> forall x :: r.start <= x < r.end ==> x in Blocks()
      ensures none <==> forall x :: r.start <= x < r.end ==> x !in Blocks()
    {
      var first := FindNextBlock(r.start, true);
      var hole := FindNextBlock(r.start, false);
      all := first == r.start && hole >= r.end;
      none := first == 0 || first >= r.end;
      assert first != 0 && first < r.end ==> first in Blocks();
      assert hole < r.end ==> hole !in Blocks();
      assert first != r.start ==> r.start !in Blocks();
      assert all ==> forall x :: r.start <= x < r.end ==> x in Blocks();
    }

    // Blocks are below some number.
    ghost method Limit() returns (m: nat)
      requires Valid()
      ensures forall x :: x in Blocks() ==> x < m
    {
      var C := Contents(ranges.tree);
      m := initial.end + if C == [] then 0 else C[|C| - 1].data;
      forall x | x in Blocks()
        ensures x < m
      {
        if Has(C, x) {
          var i :| 0 <= i < |C| && Covers(C[i], x);
          assert i < |C| - 1 ==> Gap(C, i, |C| - 1);
        }
      }
    }

    // block_set_overlap
    method Overlap(other: BlockSet) returns (some: bool)
      requires Valid() && other.Valid()
      ensures some <==> exists x :: x in Blocks() && x in other.Blocks()
    {
      ghost var A, B := Blocks(), other.Blocks();
      ghost var m := Limit();
      var b := Range(0, 0);
      while true
        invariant forall x :: x in A && x in B ==> x >= b.start
        invariant !Empty(b) ==> b.start < b.end && forall x :: b.start <= x < b.end ==> x in B
        decreases if b.start < m then m - b.start else 0
      {
        var a := FindNextRange(b.start);
        if Empty(a) {
          return false;
        }
        assert a.start in A;
        if InRange(b, a.start) {
          assert a.start in A && a.start in B;
          return true;
        }
        b := other.FindNextRange(a.start);
        if Empty(b) {
          return false;
        }
        if InRange(a, b.start) {
          assert b.start in A && b.start in B;
          return true;
        }
      }
    }

    // One range of the tree is changed; other updates may look at the set right after it.
    method UpdateRange(found: Range, to: Range, ghost i: nat)
      requires Settled() && initial == Range(0, 0) && 0 < to.start < to.end
      requires i < |Contents(ranges.tree)| && Contents(ranges.tree)[i] == Entry(found.start, found.end)
      requires Nested(Contents(ranges.tree)[i := Entry(to.start, to.end)])
      modifies ranges
      ensures Settled() && Contents(ranges.tree) == old(Contents(ranges.tree))[i := Entry(to.start, to.end)]
      ensures Kept(old(ranges.store), old(ranges.owned), ranges.store, ranges.owned)
    {
      hide Nested, Has, Contents, Kept, Sorted, Foremost, BlockTree.Valid, BlockTree.Readable;
      ghost var C := Contents(ranges.tree);
      NestedPositive(C);
      NestedForemost(C, Entry(found.start, found.end));
      NestedSorted(C[i := Entry(to.start, to.end)]);
      ValidRoot(ranges);
      var ok, pos := ranges.Update(found.start, found.end, to.start, to.end);
      SameRange(C, pos, i);
      ranges.ValidReadable();
    }

    // One range is taken out of the tree.
    method DeleteRange(e: Range, ghost i: nat)
      requires Settled() && initial == Range(0, 0)
      requires i < |Contents(ranges.tree)| && Contents(ranges.tree)[i] == Entry(e.start, e.end)
      requires Nested(RemoveAt(Contents(ranges.tree), i))
      modifies ranges
      ensures Settled() && Contents(ranges.tree) == RemoveAt(old(Contents(ranges.tree)), i)
      ensures Kept(old(ranges.store), old(ranges.owned), ranges.store, ranges.owned)
    {
      hide Nested, Has, Contents, Kept, BlockTree.Valid, BlockTree.Readable;
      ghost var C := Contents(ranges.tree);
      NestedPositive(C);
      ValidRoot(ranges);
      var pos := ranges.Remove(e.start, e.end);
      SameRange(C, pos, i);
      ranges.ValidReadable();
    }

    // ---- adding ----

    // The range before a gap is extended over the gap and the range after it. Both ranges are
    // in the tree at this point; the set already reads as the new one.
    method ExtendOver(found: Range, next: Range, ghost i: nat)
      requires Valid() && initial == Range(0, 0) && i + 1 < |Contents(ranges.tree)|
      requires Contents(ranges.tree)[i] == Entry(found.start, found.end)
               && Contents(ranges.tree)[i + 1] == Entry(next.start, next.end)
      modifies ranges
      ensures Settled() && Blocks() == old(Blocks()) + BlocksIn(Range(found.end, next.start))
      ensures Contents(ranges.tree) == old(Contents(ranges.tree))[i := Entry(found.start, next.end)]
      ensures Kept(old(ranges.store), old(ranges.owned), ranges.store, ranges.owned)
    {
      hide Canonical, Nested, Has, Contents, Kept, BlockTree.Valid, BlockTree.Readable;
      ghost var C := Contents(ranges.tree);
      CanonicalPositive(C, i);
      CanonicalPositive(C, i + 1);
      CanonicalNext(C, i);
      JoinRanges(C, i, C[i := Entry(found.start, next.end)]);
      UpdateRange(found, Range(found.start, next.end), i);
    }

    // [r.start, r.end) is next to the range `found`, entry number i, on either side.
    method Extend(path: Path, found: Range, r: Range, ghost i: nat)
      requires Valid() && initial == Range(0, 0) && 0 < r.start < r.end && Free(Contents(ranges.tree), r.start, r.end)
      requires i < |Contents(ranges.tree)| && ranges.Stands(path, i)
               && Contents(ranges.tree)[i] == Entry(found.start, found.end)
      requires if r.end == found.start then i > 0 ==> Contents(ranges.tree)[i - 1].data < r.start
               else
                 && r.start == found.end
                 && (i + 1 < |Contents(ranges.tree)| ==> Contents(ranges.tree)[i + 1].key >= r.end)
      modifies ranges
      ensures Valid() && Blocks() == old(Blocks()) + BlocksIn(r)
      ensures Kept(old(ranges.store), old(ranges.owned), ranges.store, ranges.owned)
    {
      hide Canonical, Nested, Has, Contents, Kept, BlockTree.Valid, BlockTree.Readable;
      ghost var C := Contents(ranges.tree);
      CanonicalPositive(C, i);
      CanonicalNext(C, i);
      var to := if r.end == found.start then Range(r.start, found.end) else Range(found.start, r.end);
      var q := ranges.Successor(path, i);
      if PathKey(q) == to.end {
        var next := RangeOf(q);
        JoinRanges(C, i, C[i := Entry(found.start, next.end)]);
        ExtendOver(found, next, i);
        ghost var st, own := ranges.store, ranges.owned;
        CanonicalNested(RemoveAt(C[i := Entry(found.start, next.end)], i + 1));
        DeleteRange(next, i + 1);
        KeptTwice(old(ranges.store), old(ranges.owned), st, own, ranges.store, ranges.owned);
      } else {
        SwapRange(C, i, Entry(to.start, to.end));
        CanonicalNested(C[i := Entry(to.start, to.end)]);
        UpdateRange(found, to, i);
        assert forall x: nat :: Covers(C[i], x) ==> Has(C, x) by { CoversHas(C, i); }
      }
    }

    // [r.start, r.end) touches no range: it becomes a range of its own.
    method Append(r: Range, ghost pos: nat)
      requires Valid() && initial == Range(0, 0) && 0 < r.start < r.end && Free(Contents(ranges.tree), r.start, r.end)
      requires Contents(ranges.tree) != [] ==>
                 && AtFloor(Contents(ranges.tree), pos, r.start - 1) && pos < |Contents(ranges.tree)|
                 && Contents(ranges.tree)[pos].data != r.start && Contents(ranges.tree)[pos].key != r.end
                 && (pos + 1 < |Contents(ranges.tree)| ==> Contents(ranges.tree)[pos + 1].key != r.end)
      modifies ranges
      ensures Valid() && Blocks() == old(Blocks()) + BlocksIn(r)
      ensures Kept(old(ranges.store), old(ranges.owned), ranges.store, ranges.owned)
    {
      hide Canonical, Nested, Has, Contents, Kept, AtFloor, AtCeil, Free, BlockTree.Valid, BlockTree.Readable;
      ghost var C := Contents(ranges.tree);
      var p := ranges.Insert(r.start, r.end);
      ranges.ValidReadable();
      forall i | 0 <= i < |C|
        ensures C[i].data != r.start && C[i].key != r.end
      {
        NoneTouch(C, pos, r.start, r.end, i);
      }
      InsertPlace(C, p, r.start, r.end);
      CeilIn(C, p, r.start);
      PutRange(C, p, Entry(r.start, r.end));
      CanonicalNested(Contents(ranges.tree));
    }

    lemma NoneIn(r: Range)
      requires forall x :: r.start <= x < r.end ==> x !in Blocks()
      ensures Free(Contents(ranges.tree), r.start, r.end)
    {
      forall x: nat | r.start <= x < r.end
        ensures !Has(Contents(ranges.tree), x)
      {
        assert x !in Blocks();
      }
    }

    lemma AllIn(r: Range)
      requires initial == Range(0, 0) && forall x :: r.start <= x < r.end ==> x in Blocks()
      ensures forall x: nat :: r.start <= x < r.end ==> Has(Contents(ranges.tree), x)
    {
      forall x: nat | r.start <= x < r.end
        ensures Has(Contents(ranges.tree), x)
      {
        assert x in Blocks();
      }
    }

    // block_set_add_range
    method AddRange(r: Range)
      requires Valid() && initial == Range(0, 0) && 0 < r.start < r.end
      requires forall x :: r.start <= x < r.end ==> x !in Blocks()
      modifies ranges
      ensures Valid() && Blocks() == old(Blocks()) + BlocksIn(r)
      ensures Kept(old(ranges.store), old(ranges.owned), ranges.store, ranges.owned)
    {
      hide Canonical, Nested, Has, AtFloor, Contents, Kept, BlockTree.Valid, BlockTree.Readable;
      ghost var C := Contents(ranges.tree);
      NoneIn(r);
      var path, pos := ranges.Floor(r.start - 1);
      var found := RangeOf(path);
      ghost var i := pos;
      if C != [] {
        AddPlace(C, pos, r.start, r.end);
        CanonicalPositive(C, pos);
        CanonicalNext(C, pos);
      }
      if !Empty(found) && found.end < r.start {
        var q := ranges.Successor(path, pos);
        if PathKey(q) == r.end {
          CanonicalPositive(C, pos + 1);
          path, found, i := q, RangeOf(q), pos + 1;
        }
      }
      if !Empty(found) && (r.end == found.start || r.start == found.end) {
        Extend(path, found, r, i);
      } else {
        Append(r, pos);
      }
    }

    // ---- removing ----

    // A second range for the part after [r.start, r.end) is put into the tree. It overlaps the
    // range `found`, entry number i; the set still reads as the old one.
    method Cut(found: Range, r: Range, ghost i: nat)
      requires Valid() && initial == Range(0, 0) && i < |Contents(ranges.tree)|
      requires Contents(ranges.tree)[i] == Entry(found.start, found.end) && found.start < r.start < r.end < found.end
      modifies ranges
      ensures Settled() && Blocks() == old(Blocks())
      ensures Contents(ranges.tree) == InsertAt(old(Contents(ranges.tree)), i + 1, Entry(r.end, found.end))
      ensures Kept(old(ranges.store), old(ranges.owned), ranges.store, ranges.owned)
    {
      hide Canonical, Nested, Has, Contents, Kept, AtCeil, BlockTree.Valid, BlockTree.Readable;
      ghost var C := Contents(ranges.tree);
      CutRange(C, i, r.start, r.end, InsertAt(C, i + 1, Entry(r.end, found.end)));
      var p := ranges.Insert(r.end, found.end);
      ranges.ValidReadable();
      CutPlace(C, i, r.end, p);
    }

    // block_set_remove_range
    method RemoveRange(r: Range)
      requires Valid() && initial == Range(0, 0) && r.start < r.end
      requires forall x :: r.start <= x < r.end ==> x in Blocks()
      modifies ranges
      ensures Valid() && Blocks() == old(Blocks()) - BlocksIn(r)
      ensures Kept(old(ranges.store), old(ranges.owned), ranges.store, ranges.owned)
    {
      hide Canonical, Nested, Has, AtFloor, Contents, Kept, BlockTree.Valid, BlockTree.Readable;
      ghost var C := Contents(ranges.tree);
      var path, i := ranges.Floor(r.start);
      var found := RangeOf(path);
      AllIn(r);
      HasSome(C, r.start);
      HoldsRange(C, i, r.start, r.end);
      CanonicalPositive(C, i);
      CanonicalNext(C, i);
      if found == r {
        DropRange(C, i);
        CanonicalNested(RemoveAt(C, i));
        DeleteRange(found, i);
      } else {
        Shrink(found, r, i);
      }
    }

    // [r.start, r.end) is part of the range `found`, entry number i, but not all of it.
    method Shrink(found: Range, r: Range, ghost i: nat)
      requires Valid() && initial == Range(0, 0) && i < |Contents(ranges.tree)|
               && Contents(ranges.tree)[i] == Entry(found.start, found.end)
      requires found.start <= r.start < r.end <= found.end && found != r
      modifies ranges
      ensures Valid() && Blocks() == old(Blocks()) - BlocksIn(r)
      ensures Kept(old(ranges.store), old(ranges.owned), ranges.store, ranges.owned)
    {
      hide Canonical, Nested, Has, Contents, Kept, BlockTree.Valid, BlockTree.Readable;
      ghost var C := Contents(ranges.tree);
      CanonicalPositive(C, i);
      CanonicalNext(C, i);
      CoversHas(C, i);
      if found.start == r.start || found.end == r.end {
        var to := if found.start == r.start then Range(r.end, found.end) else Range(found.start, r.start);
        SwapRange(C, i, Entry(to.start, to.end));
        CanonicalNested(C[i := Entry(to.start, to.end)]);
        UpdateRange(found, to, i);
      } else {
        CutRange(C, i, r.start, r.end, InsertAt(C, i + 1, Entry(r.end, found.end)));
        Cut(found, r, i);
        ghost var M, st, own := Contents(ranges.tree), ranges.store, ranges.owned;
        CanonicalNested(M[i := Entry(found.start, r.start)]);
        UpdateRange(found, Range(found.start, r.start), i);
        KeptTwice(old(ranges.store), old(ranges.owned), st, own, ranges.store, ranges.owned);
      }
    }

    // block_set_copy
    constructor Copy(src: BlockSet)
      requires src.Valid()
      ensures Valid() && fresh(ranges) && Blocks() == src.Blocks() && initial == Range(0, 0)
      ensures ranges.owned <= ranges.store.Keys - src.ranges.store.Keys
      ensures forall b :: b in src.ranges.store ==> b in ranges.store && ranges.store[b] == src.ranges.store[b]
    {
      hide BlockTree.Readable, Nested, Canonical, Contents;
      ranges := new BlockTree.Copy(src.ranges);
      initial := Range(0, 0);
      new;
      ranges.ValidReadable();
      if src.initial != Range(0, 0) {
        AddRange(src.initial);
      }
    }
  }

  lemma ValidRoot(t: BlockTree)
    requires t.Valid() && Contents(t.tree) != []
    ensures t.root != 0
  {
  }
}