// The directory of file.c: lookups, the changes a transaction stages, and their commit.
module Directories {
  import opened TreeModel
  import opened TreeStore
  import opened TreeSteps
  import opened TreeSearch
  import opened TreePath
  import opened TreeInsert
  import opened TreeRemove
  import opened TreeDelete
  import opened TreeLinks
  import opened TreeBorrow
  import opened TreeUpdate
  import opened BlockTrees
  import opened DirModel

  lemma TreeSorted(t: BlockTree)
    requires t.Valid()
    ensures Sorted(Contents(t.tree)) && t.Readable()
  {
    t.ValidReadable();
  }

  // The entries before pos are not for path p.
  ghost predicate Passed(C: seq<Entry>, names: Names, pos: nat, h: nat, p: string)
  {
    pos <= |C| && forall k :: 0 <= k < pos ==> C[k].key < h || (C[k].data in names && names[C[k].data] != p)
  }

  // Nothing behind pos has a key below h.
  ghost predicate Reached(C: seq<Entry>, pos: nat, h: nat)
  {
    forall k :: pos <= k < |C| ==> C[k].key >= h
  }

  lemma ReachedSorted(C: seq<Entry>, pos: nat, h: nat)
    requires Sorted(C) && (pos < |C| ==> C[pos].key >= h)
    ensures Reached(C, pos, h)
  {
    forall k | pos <= k < |C|
      ensures C[k].key >= h
    {
      assert pos < k ==> Le(C, pos, k);
    }
  }

  lemma {:induction false} NotFound(C: seq<Entry>, names: Names, hash: string -> nat, pos: nat, p: string)
    requires Unique(C, names) && Hashed(C, names, hash)
    requires Passed(C, names, pos, PathHash(hash, p), p) && Reached(C, pos, PathHash(hash, p) + 1)
    ensures p !in Dir(C, names)
  {
    forall i | 0 <= i < |C|
      ensures names[C[i].data] != p
    {
      assert C[i].key == PathHash(hash, names[C[i].data]);
    }
  }

  lemma {:induction false} CeilPassed(C: seq<Entry>, names: Names, pos: nat, h: nat, p: string)
    requires h > 0 && AtCeil(C, pos, h - 1)
    ensures Passed(C, names, pos, h, p)
  {
    forall k | 0 <= k < pos
      ensures C[k].key < h
    {
      assert CeilAt(C, pos, h - 1, k);
    }
  }

  lemma {:induction false} CeilExact(C: seq<Entry>, pos: nat, key: nat)
    requires AtCeil(C, pos, key) && !(pos < |C| && C[pos].key == key)
    ensures forall i :: 0 <= i < |C| ==> C[i].key != key
  {
    forall k | 0 <= k < |C|
      ensures C[k].key != key
    {
      assert CeilAt(C, pos, key, k);
    }
  }

  // file_tree_lookup
  method TreeLookup(tree: BlockTree, names: Names, hash: string -> nat, p: string) returns (b: nat)
    requires tree.Valid() && Unique(Contents(tree.tree), names) && Hashed(Contents(tree.tree), names, hash)
    ensures if p in Dir(Contents(tree.tree), names) then b == Dir(Contents(tree.tree), names)[p] > 0 else b == 0
  {
    hide Contents, Dir, BlockTree.Valid, BlockTree.Readable, BlockTree.Rests, AtCeil;
    var h := PathHash(hash, p);
    ghost var C := Contents(tree.tree);
    TreeSorted(tree);
    var path, pos := tree.Ceiling(h - 1);
    CeilPassed(C, names, pos, h, p);
    while PathKey(path) != 0 && PathKey(path) < h
      invariant Shows(C, pos, path) && (pos < |C| ==> tree.Rests(path, pos)) && Passed(C, names, pos, h, p)
      decreases 2 * (|C| - pos) + if path.data == 0 then 1 else 0
    {
      var data := path.data;
      path := tree.Advance(path, pos);
      pos := pos + if data > 0 then 1 else 0;
    }
    ReachedSorted(C, pos, h);
    while PathKey(path) == h
      invariant Shows(C, pos, path) && (pos < |C| ==> tree.Rests(path, pos)) && Passed(C, names, pos, h, p)
                && Reached(C, pos, h)
      decreases |C| - pos
    {
      if path.data == 0 {
        path := tree.Advance(path, pos);
      }
      assert C[pos].data in names;
      if names[path.data] == p {
        DirAt(C, names, pos);
        return path.data;
      }
      path := tree.Advance(path, pos);
      pos := pos + 1;
    }
    ReachedSorted(C, pos, h + 1);
    NotFound(C, names, hash, pos, p);
    b := 0;
  }

  // A walk for one key, as file_is_removed does it; 0 if the key is not there.
  method KeyLookup(tree: BlockTree, key: nat) returns (d: nat)
    requires tree.Valid() && key > 0
    ensures if d > 0 then Entry(key, d) in Contents(tree.tree)
            else forall i :: 0 <= i < |Contents(tree.tree)| ==> Contents(tree.tree)[i].key != key
  {
    hide Contents, BlockTree.Valid, BlockTree.Readable, BlockTree.Rests, AtCeil;
    ghost var C := Contents(tree.tree);
    tree.ValidReadable();
    var path, pos := tree.Ceiling(key);
    d := if PathKey(path) == key then path.data else 0;
    if d > 0 {
      assert C[pos] == Entry(key, d);
    } else {
      CeilExact(C, pos, key);
    }
  }

  lemma TreeRooted(t: BlockTree, e: Entry)
    requires t.Valid() && e in Contents(t.tree)
    ensures t.root != 0 && e.key > 0 && e.data > 0
  {
    TreeSorted(t);
  }

  // First loop of file_transaction_complete: rewritten files move to their new blocks.
  method ApplyUpdates(to: BlockTree, updated: BlockTree, names: Names, hash: string -> nat, ghost M: map<string, nat>)
    requires to.Valid() && updated.Valid() && to != updated && Says(Contents(to.tree), names, hash, M)
    requires var U := Contents(updated.tree); Unique(U, names) && forall i :: 0 <= i < |U| ==> About(M, names, U[i])
    modifies to
    ensures to.Valid() && Says(Contents(to.tree), names, hash, M + Dir(Contents(updated.tree), names))
    ensures Kept(old(to.store), old(to.owned), to.store, to.owned)
  {
    hide Contents, Dir, Unique, Hashed, Says, Kept, BlockTree.Valid, BlockTree.Readable, BlockTree.Stands, Sorted;
    ghost var U := Contents(updated.tree);
    NoChange(U, names, M);
    KeptSelf(to.store, to.owned);
    updated.ValidReadable();
    var path := updated.First();
    ghost var n := 0;
    while PathKey(path) != 0
      invariant updated.Readable() && n <= |U| && Contents(updated.tree) == U && updated.Valid() && to.Valid()
                && Unique(U[..n], names)
      invariant PathKey(path) == 0 <==> n == |U|
      invariant n < |U| ==> updated.Stands(path, n) && U[n] == Entry(PathKey(path), path.data)
      invariant Says(Contents(to.tree), names, hash, M + Dir(U[..n], names))
      invariant Kept(old(to.store), old(to.owned), to.store, to.owned)
      decreases |U| - n
    {
      NextChange(U, names, n, M);
      assert About(M, names, U[n]);
      var p := names[path.data];
      ghost var C, N, st, own := Contents(to.tree), M + Dir(U[..n], names), to.store, to.owned;
      SaysEntry(C, names, hash, N, p);
      TreeRooted(to, Entry(PathHash(hash, p), PathKey(path)));
      TreeRooted(updated, U[n]);
      TreeSorted(to);
      var ok, pos := to.Update(PathHash(hash, p), PathKey(path), PathHash(hash, p), path.data);
      SameKeyOrder(C, pos, path.data);
      SaysSet(C, names, hash, N, pos, path.data);
      KeptTwice(old(to.store), old(to.owned), st, own, to.store, to.owned);
      path := updated.Successor(path, n);
      n := n + 1;
    }
  }

  // Second loop: removed files are found by path and dropped.
  method ApplyRemovals(to: BlockTree, removed: BlockTree, names: Names, hash: string -> nat, ghost M: map<string, nat>)
    requires to.Valid() && removed.Valid() && to != removed && Says(Contents(to.tree), names, hash, M)
    requires var R := Contents(removed.tree);
             Unique(R, names) && forall i :: 0 <= i < |R| ==> About(M, names, R[i]) && R[i].key == R[i].data
    modifies to
    ensures to.Valid() && Says(Contents(to.tree), names, hash, M - Dir(Contents(removed.tree), names).Keys)
    ensures Kept(old(to.store), old(to.owned), to.store, to.owned)
  {
    hide Contents, Dir, Unique, Hashed, Says, Kept, BlockTree.Valid, BlockTree.Readable, BlockTree.Stands, Sorted;
    ghost var R := Contents(removed.tree);
    NoChange(R, names, M);
    KeptSelf(to.store, to.owned);
    removed.ValidReadable();
    var path := removed.First();
    ghost var n := 0;
    while PathKey(path) != 0
      invariant removed.Readable() && n <= |R| && Contents(removed.tree) == R && removed.Valid() && to.Valid()
                && Unique(R[..n], names)
      invariant PathKey(path) == 0 <==> n == |R|
      invariant n < |R| ==> removed.Stands(path, n) && R[n] == Entry(PathKey(path), path.data)
      invariant Says(Contents(to.tree), names, hash, M - Dir(R[..n], names).Keys)
      invariant Kept(old(to.store), old(to.owned), to.store, to.owned)
      decreases |R| - n
    {
      NextChange(R, names, n, M);
      assert About(M, names, R[n]);
      var p := names[path.data];
      ghost var C, N, st, own := Contents(to.tree), M - Dir(R[..n], names).Keys, to.store, to.owned;
      SaysEntry(C, names, hash, N, p);
      SaysFacts(C, names, hash, N);
      var b := TreeLookup(to, names, hash, p);
      TreeRooted(to, Entry(PathHash(hash, p), b));
      var pos := to.Remove(PathHash(hash, p), b);
      SaysDrop(C, names, hash, N, pos);
      KeptTwice(old(to.store), old(to.owned), st, own, to.store, to.owned);
      path := removed.Successor(path, n);
      n := n + 1;
    }
  }

  // Third loop: added files are inserted; one whose path is taken fails the transaction.
  method ApplyAdditions(to: BlockTree, added: BlockTree, names: Names, hash: string -> nat, ghost M: map<string, nat>)
    returns (ok: bool)
    requires to.Valid() && added.Valid() && to != added && Says(Contents(to.tree), names, hash, M)
    requires Unique(Contents(added.tree), names)
    modifies to
    ensures to.Valid() && (ok <==> Dir(Contents(added.tree), names).Keys !! M.Keys)
    ensures ok ==> Says(Contents(to.tree), names, hash, M + Dir(Contents(added.tree), names))
    ensures Kept(old(to.store), old(to.owned), to.store, to.owned)
  {
    hide Contents, Dir, Unique, Hashed, Says, Kept, BlockTree.Valid, BlockTree.Readable, BlockTree.Stands, Sorted;
    ghost var A := Contents(added.tree);
    NoChange(A, names, M);
    KeptSelf(to.store, to.owned);
    added.ValidReadable();
    var path := added.First();
    ghost var n := 0;
    assert Dir(A[..0], names).Keys !! M.Keys by {
      NoKeys(A, names);
    }
    while PathKey(path) != 0
      invariant added.Readable() && n <= |A| && Contents(added.tree) == A && added.Valid() && to.Valid()
                && Unique(A[..n], names)
      invariant PathKey(path) == 0 <==> n == |A|
      invariant n < |A| ==> added.Stands(path, n) && A[n] == Entry(PathKey(path), path.data)
      invariant Dir(A[..n], names).Keys !! M.Keys && Says(Contents(to.tree), names, hash, M + Dir(A[..n], names))
      invariant Kept(old(to.store), old(to.owned), to.store, to.owned)
      decreases |A| - n
    {
      NextChange(A, names, n, M);
      var p := names[path.data];
      ghost var C, N, st, own := Contents(to.tree), M + Dir(A[..n], names), to.store, to.owned;
      SaysFacts(C, names, hash, N);
      var b := TreeLookup(to, names, hash, p);
      if b != 0 {
        return false;
      }
      TreeRooted(added, A[n]);
      var pos := to.Insert(PathHash(hash, p), path.data);
      SaysPut(C, names, hash, N, pos, path.data);
      DirSnoc(A, names, n);
      KeptTwice(old(to.store), old(to.owned), st, own, to.store, to.owned);
      path := added.Successor(path, n);
      n := n + 1;
    }
    ok := true;
  }

  lemma NoKeys(X: seq<Entry>, names: Names)
    requires Unique(X[..0], names)
    ensures Dir(X[..0], names) == map[]
  {
  }

  class FileTransaction {
    const hash: string -> nat
    var files: BlockTree     // the committed directory
    const added: BlockTree
    const updated: BlockTree
    const removed: BlockTree
    var names: Names         // the paths in file entry blocks
    var freed: set<nat>      // committed file entry blocks it frees
    var own: set<nat>        // file entry blocks it has allocated

    ghost predicate Trees()
      reads this, files, added, updated, removed
    {
      && files.Valid() && added.Valid() && updated.Valid() && removed.Valid()
      && files != added && files != updated && files != removed && added != updated && added != removed
      && updated != removed
    }

    ghost function S(): Changes
      reads this, files, added, updated, removed
    {
      Changes(Contents(files.tree), Contents(added.tree), Contents(updated.tree), Contents(removed.tree), names)
    }

    ghost predicate Valid()
      reads this, files, added, updated, removed
    {
      Trees() && Staged(S(), hash) && Apart(S()) && Frees(S(), freed) && Owns(S(), own)
    }

    // A transaction without changes sees the committed directory.
    constructor (files: BlockTree, caps: Caps, names: Names, hash: string -> nat)
      requires files.Valid() && CapsOk(caps) && Unique(Contents(files.tree), names)
               && Hashed(Contents(files.tree), names, hash)
      ensures Valid() && this.files == files && this.names == names && this.hash == hash
      ensures freed == {} && own == {} && Visible(S()) == Dir(Contents(files.tree), names) && fresh(added)
              && fresh(updated)
              && fresh(removed)
    {
      hide Contents, BlockTree.Valid, BlockTree.Readable, Staged, Apart, Visible, Dir, Unique, Hashed;
      this.files, this.names, this.hash, freed, own := files, names, hash, {}, {};
      added := new BlockTree(caps);
      updated := new BlockTree(caps);
      removed := new BlockTree(caps);
      new;
      NothingStaged(Contents(files.tree), names, hash);
      assert S() == Changes(Contents(files.tree), [], [], [], names);
    }

    // The lookup of file_open: block of the file entry for path p as this transaction sees it, 0 if
    // there is none, and its committed block.
    method Find(p: string) returns (b: nat, committed: nat)
      requires Valid()
      ensures if p in Visible(S()) then b == Visible(S())[p] > 0 else b == 0
      ensures p in Dir(S().added, names) || b == 0 ==> committed == 0
      ensures p !in Dir(S().added, names) && b != 0 ==>
                p in Dir(S().files, names) && committed == Dir(S().files, names)[p] > 0
    {
      hide Contents, Dir, Unique, Hashed, BlockTree.Valid, BlockTree.Readable;
      ghost var s := S();
      committed := 0;
      b := TreeLookup(added, names, hash, p);
      if b != 0 {
        return;
      }
      committed := TreeLookup(files, names, hash, p);
      if committed == 0 {
        FilesOnly(s, hash, p);
        return;
      }
      FoundByBlock(s.files, names, s.removed, p, committed);
      FoundByBlock(s.files, names, s.updated, p, committed);
      var gone := KeyLookup(removed, committed);
      if gone != 0 {
        return 0, 0;
      }
      b := KeyLookup(updated, committed);
      if b == 0 {
        b := committed;
      }
    }

    // file_create: block is newly allocated for the file entry.
    method Create(p: string, block: nat)
      requires Valid() && p !in Visible(S()) && block > 0 && block !in names
      modifies this`names, this`own, added
      ensures Valid() && Visible(S()) == old(Visible(S()))[p := block] && names == old(names)[block := p]
              && own == old(own) + {block}
    {
      hide Contents, Dir, Unique, Hashed, BlockTree.Valid, BlockTree.Readable, Staged, Apart, Visible, Remaining,
           Keys, Blocks;
      ghost var s := S();
      names, own := names[block := p], own + {block};
      var pos := added.Insert(PathHash(hash, p), block);
      PutBlocks(s.added, pos, Entry(PathHash(hash, p), block));
      CreateStep(s, hash, p, block, pos, S());
    }

    // file_block_map_update: a committed file that changes for the first time gets a new file
    // entry block; otherwise its block is written in place.
    method Touch(p: string, block: nat)
      requires Valid() && p in Visible(S()) && block > 0 && block !in names
      modifies this`names, this`freed, this`own, updated
      ensures Valid()
      ensures if p in old(Dir(S().added, names)) || p in old(Dir(S().updated, names))
              then Visible(S()) == old(Visible(S())) && names == old(names) && freed == old(freed)
                   && own == old(own)
              else Visible(S()) == old(Visible(S()))[p := block] && names == old(names)[block := p]
                   && p in old(Dir(S().files, names)) && freed == old(freed) + {old(Dir(S().files, names)[p])}
                   && own == old(own) + {block}
    {
      hide Contents, Dir, Unique, Hashed, BlockTree.Valid, BlockTree.Readable, Apart, Frees, Owns;
      ghost var s := S();
      var b := TreeLookup(added, names, hash, p);
      if b != 0 {
        return;
      }
      var committed := TreeLookup(files, names, hash, p);
      FilesOnly(s, hash, p);
      FoundByBlock(s.files, names, s.updated, p, committed);
      var copy := KeyLookup(updated, committed);
      if copy != 0 {
        return;
      }
      Redirect(p, committed, block);
    }

    // The committed file entry block is replaced by a copy.
    method Redirect(p: string, committed: nat, block: nat)
      requires Valid() && p in Remaining(S()) && p in Dir(S().files, names) && p !in Dir(S().updated, names)
      requires committed == Dir(S().files, names)[p] > 0 && block > 0 && block !in names
      modifies this`names, this`freed, this`own, updated
      ensures Valid() && Visible(S()) == old(Visible(S()))[p := block] && names == old(names)[block := p]
              && freed == old(freed) + {committed} && own == old(own) + {block}
    {
      hide Contents, Dir, Unique, Hashed, BlockTree.Valid, BlockTree.Readable, Apart, Staged, Visible, Remaining, Keys,
           Blocks;
      ghost var s := S();
      names := names[block := p];
      var pos := updated.Insert(committed, block);
      UpdateStep(s, hash, p, block, pos, S());
      freed, own := freed + {committed}, own + {block};
      PutBlocks(s.updated, pos, Entry(committed, block));
    }

    // file_delete
    method Delete(p: string) returns (found: bool)
      requires Valid()
      modifies this`freed, this`own, added, updated, removed
      ensures Valid() && names == old(names) && found == (p in old(Visible(S())))
              && Visible(S()) == old(Visible(S())) - {p}
      ensures !found ==> freed == old(freed) && own == old(own)
      ensures found && p in old(Dir(S().added, names).Keys + Dir(S().updated, names).Keys) ==>
                freed == old(freed) && own == old(own) - {old(Visible(S())[p])} && old(Visible(S())[p]) in old(own)
      ensures found && p !in old(Dir(S().added, names).Keys + Dir(S().updated, names).Keys) ==>
                p in old(Dir(S().files, names)) && freed == old(freed) + {old(Dir(S().files, names)[p])}
                && own == old(own)
    {
      hide Contents, Dir, Unique, Hashed, BlockTree.Valid, BlockTree.Readable, Apart, Visible, Remaining, Keys, Blocks;
      ghost var s := S();
      var b := TreeLookup(added, names, hash, p);
      if b != 0 {
        Withdraw(p, b);
        return true;
      }
      FilesOnly(s, hash, p);
      var old_;
      b, old_ := Find(p);
      if b == 0 {
        assert Visible(s) - {p} == Visible(s);
        return false;
      }
      Where(s, hash, p, b, old_);
      if b != old_ {
        Revert(p, old_, b);
      }
      ghost var s1 := S();
      var pos := removed.Insert(old_, old_);
      RemoveStep(s1, hash, p, old_, pos, S());
      DeleteStep(s, p, S());
      PutBlocks(s1.removed, pos, Entry(old_, old_));
      if b == old_ {
        freed := freed + {old_};
      } else {
        assert freed - {old_} + {old_} == freed;
      }
      found := true;
    }

    method Withdraw(p: string, b: nat)
      requires Valid() && p in Dir(S().added, names) && b == Dir(S().added, names)[p]
      modifies this`own, added
      ensures Valid() && Visible(S()) == old(Visible(S())) - {p} && p in old(Visible(S()))
              && b == old(Visible(S())[p]) && b in old(own) && own == old(own) - {b}
    {
      hide Contents, Dir, Unique, Hashed, BlockTree.Valid, BlockTree.Readable, Apart;
      ghost var s := S();
      SaysEntry(s.added, names, hash, Dir(s.added, names), p);
      TreeRooted(added, Entry(PathHash(hash, p), b));
      var pos := added.Remove(PathHash(hash, p), b);
      UncreateStep(s, hash, pos, S());
      DropAdded(s, hash, own, pos);
      own := own - {b};
    }

    method Revert(p: string, old_: nat, b: nat)
      requires Valid() && p in Dir(S().updated, names) && b == Dir(S().updated, names)[p]
      requires p in Dir(S().files, names) && old_ == Dir(S().files, names)[p]
      modifies this`own, updated
      ensures Trees() && Staged(S(), hash) && S() == old(S()).(updated := S().updated)
      ensures p !in Dir(S().updated, names) && Remaining(S()).Keys == old(Remaining(S()).Keys)
              && Remaining(S()) - {p} == old(Remaining(S())) - {p}
      ensures Frees(S(), freed - {old_}) && old_ in freed && Owns(S(), own) && own == old(own) - {b} && b in old(own)
    {
      hide Contents, Dir, Unique, Hashed, BlockTree.Valid, BlockTree.Readable, Apart;
      ghost var s := S();
      ghost var i := DirFind(s.updated, names, p);
      FoundByBlock(s.files, names, s.updated, p, old_);
      TreeRooted(updated, s.updated[i]);
      var pos := updated.Remove(old_, b);
      RevertStep(s, hash, pos, S());
      DropUpdated(s, hash, freed, own, pos);
      own := own - {b};
    }

    // file_transaction_complete: the changes applied to a copy of the directory as it is now.
    method Complete() returns (ok: bool, new_: BlockTree)
      requires Trees() && Staged(S(), hash)
      ensures fresh(new_) && new_.Valid() && Kept(files.store, {}, new_.store, new_.owned)
      ensures ok <==> Apart(S())
      ensures ok ==> Says(Contents(new_.tree), names, hash, Visible(S()))
    {
      hide Contents, Dir, Unique, Hashed, Says, Kept, BlockTree.Valid, BlockTree.Readable;
      ghost var s := S();
      new_ := new BlockTree.Copy(files);
      ghost var M := Dir(s.files, names);
      StagedParts(s, hash);
      KeptSelf(new_.store, new_.owned);
      ApplyUpdates(new_, updated, names, hash, M);
      ghost var st, own := new_.store, new_.owned;
      ApplyRemovals(new_, removed, names, hash, M + Dir(s.updated, names));
      KeptTwice(files.store, {}, st, own, new_.store, new_.owned);
      st, own := new_.store, new_.owned;
      ok := ApplyAdditions(new_, added, names, hash, Remaining(s));
      KeptTwice(files.store, {}, st, own, new_.store, new_.owned);
    }
  }

  lemma {:induction false} StagedParts(s: Changes, hash: string -> nat)
    requires Staged(s, hash)
    ensures Says(s.files, s.names, hash, Dir(s.files, s.names))
    ensures forall i :: 0 <= i < |s.updated| ==> About(Dir(s.files, s.names), s.names, s.updated[i])
    ensures forall i :: 0 <= i < |s.removed| ==>
              About(Dir(s.files, s.names) + Dir(s.updated, s.names), s.names, s.removed[i])
                && s.removed[i].key == s.removed[i].data
  {
    hide Dir;
    forall i | 0 <= i < |s.removed|
      ensures About(Dir(s.files, s.names) + Dir(s.updated, s.names), s.names, s.removed[i])
    {
      assert About(Dir(s.files, s.names), s.names, s.removed[i]);
      DirAt(s.removed, s.names, i);
    }
  }

  lemma {:induction false} Where(s: Changes, hash: string -> nat, p: string, b: nat, c: nat)
    requires Staged(s, hash) && p in Visible(s) && p !in Dir(s.added, s.names) && b == Visible(s)[p]
    requires p in Dir(s.files, s.names) && c == Dir(s.files, s.names)[p]
    ensures if p in Dir(s.updated, s.names) then b == Dir(s.updated, s.names)[p] != c else b == c
  {
    hide Dir, Unique;
    if p in Dir(s.updated, s.names) {
      var i := DirFind(s.updated, s.names, p);
      assert About(Dir(s.files, s.names), s.names, s.updated[i]);
    }
  }

  // A visible path that was not added is a committed one.
  lemma {:induction false} FilesOnly(s: Changes, hash: string -> nat, p: string)
    requires Staged(s, hash) && p !in Dir(s.added, s.names)
    ensures p in Visible(s) <==> p in Remaining(s)
    ensures p in Remaining(s) <==> p in Dir(s.files, s.names) && p !in Dir(s.removed, s.names)
  {
    hide Dir, Unique;
    if p in Dir(s.updated, s.names) {
      var i := DirFind(s.updated, s.names, p);
      assert About(Dir(s.files, s.names), s.names, s.updated[i]);
    }
  }
}
