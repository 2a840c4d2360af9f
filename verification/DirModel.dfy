// Directories: a tree that lists the blocks of file entries under the hash of their paths, and
// the changes a transaction has staged against it.
module DirModel {
  import opened TreeModel
  import opened TreeInsert
  import opened TreeRemove

  // The path stored in each file entry block.
  type Names = map<nat, string>

  // path_hash: 0 is not a key.
  function PathHash(hash: string -> nat, p: string): nat
  {
    if hash(p) == 0 then 1 else hash(p)
  }

  // Every listed block holds a file entry, and no two hold the same path.
  ghost predicate Unique(C: seq<Entry>, names: Names)
  {
    && (forall i :: 0 <= i < |C| ==> C[i].data in names)
    && (forall i, j :: 0 <= i < |C| && 0 <= j < |C| && names[C[i].data] == names[C[j].data] ==> i == j)
  }

  ghost predicate Hashed(C: seq<Entry>, names: Names, hash: string -> nat)
    requires Unique(C, names)
  {
    forall i :: 0 <= i < |C| ==> C[i].key == PathHash(hash, names[C[i].data])
  }

  // What the tree says: the block of each path.
  ghost function Dir(C: seq<Entry>, names: Names): map<string, nat>
    requires Unique(C, names)
  {
    map i | 0 <= i < |C| :: names[C[i].data] := C[i].data
  }

  lemma DirAt(C: seq<Entry>, names: Names, i: nat)
    requires Unique(C, names) && i < |C|
    ensures C[i].data in names && names[C[i].data] in Dir(C, names) && Dir(C, names)[names[C[i].data]] == C[i].data
  {
  }

  lemma DirFind(C: seq<Entry>, names: Names, p: string) returns (i: nat)
    requires Unique(C, names) && p in Dir(C, names)
    ensures i < |C| && C[i].data in names && names[C[i].data] == p && Dir(C, names)[p] == C[i].data
  {
    var j :| 0 <= j < |C| && names[C[j].data] == p;
    i := j;
  }

  // Replacing an entry by one for the same path.
  lemma {:induction false} UniqueSet(C: seq<Entry>, names: Names, pos: nat, e: Entry)
    requires Unique(C, names) && pos < |C| && e.data in names && names[e.data] == names[C[pos].data]
    ensures Unique(C[pos := e], names)
  {
    var D := C[pos := e];
    forall i, j | 0 <= i < |D| && 0 <= j < |D| && names[D[i].data] == names[D[j].data]
      ensures i == j
    {
      assert names[C[i].data] == names[C[j].data];
    }
  }

  lemma {:induction false} DirSet(C: seq<Entry>, names: Names, pos: nat, e: Entry)
    requires Unique(C, names) && pos < |C| && e.data in names && names[e.data] == names[C[pos].data]
    ensures Unique(C[pos := e], names) && Dir(C[pos := e], names) == Dir(C, names)[names[e.data] := e.data]
  {
    hide Dir, Unique;
    var D := C[pos := e];
    UniqueSet(C, names, pos, e);
    var m, n := Dir(D, names), Dir(C, names)[names[e.data] := e.data];
    DirAt(D, names, pos);
    forall p
      ensures p in m <==> p in n
      ensures p in m && p in n ==> m[p] == n[p]
    {
      if p in m {
        var i := DirFind(D, names, p);
        if i != pos {
          DirAt(C, names, i);
        }
      } else if p in n && p != names[e.data] {
        var i := DirFind(C, names, p);
        DirAt(D, names, i);
      }
    }
  }

  lemma {:induction false} UniqueDrop(C: seq<Entry>, names: Names, pos: nat)
    requires Unique(C, names) && pos < |C|
    ensures Unique(RemoveAt(C, pos), names)
    ensures var D := RemoveAt(C, pos);
            forall i :: 0 <= i < |D| ==> D[i].data in names && names[D[i].data] != names[C[pos].data]
  {
    var D := RemoveAt(C, pos);
    assert forall i :: 0 <= i < |D| ==> D[i] == C[if i < pos then i else i + 1];
    forall i, j | 0 <= i < |D| && 0 <= j < |D| && names[D[i].data] == names[D[j].data]
      ensures i == j
    {
      assert D[i] == C[if i < pos then i else i + 1] && D[j] == C[if j < pos then j else j + 1];
    }
  }

  lemma {:induction false} DirDrop(C: seq<Entry>, names: Names, pos: nat)
    requires Unique(C, names) && pos < |C|
    ensures Unique(RemoveAt(C, pos), names) && Dir(RemoveAt(C, pos), names) == Dir(C, names) - {names[C[pos].data]}
  {
    hide Dir, Unique;
    var D := RemoveAt(C, pos);
    UniqueDrop(C, names, pos);
    DirAt(C, names, pos);
    var m, n := Dir(D, names), Dir(C, names) - {names[C[pos].data]};
    forall p
      ensures p in m <==> p in n
      ensures p in m && p in n ==> m[p] == n[p]
    {
      if p in m {
        var i := DirFind(D, names, p);
        DirAt(C, names, if i < pos then i else i + 1);
      } else if p in n {
        var i := DirFind(C, names, p);
        DirAt(D, names, if i < pos then i else i - 1);
      }
    }
  }

  lemma {:induction false} UniquePut(C: seq<Entry>, names: Names, pos: nat, e: Entry)
    requires Unique(C, names) && pos <= |C| && e.data in names && names[e.data] !in Dir(C, names)
    ensures Unique(InsertAt(C, pos, e), names)
  {
    var D := InsertAt(C, pos, e);
    forall i, j | 0 <= i < |D| && 0 <= j < |D| && names[D[i].data] == names[D[j].data]
      ensures i == j
    {
      assert i != pos ==> D[i] == C[if i < pos then i else i - 1];
      assert j != pos ==> D[j] == C[if j < pos then j else j - 1];
    }
  }

  lemma {:induction false} DirPut(C: seq<Entry>, names: Names, pos: nat, e: Entry)
    requires Unique(C, names) && pos <= |C| && e.data in names && names[e.data] !in Dir(C, names)
    ensures Unique(InsertAt(C, pos, e), names)
            && Dir(InsertAt(C, pos, e), names) == Dir(C, names)[names[e.data] := e.data]
  {
    hide Dir, Unique;
    var D := InsertAt(C, pos, e);
    UniquePut(C, names, pos, e);
    var m, n := Dir(D, names), Dir(C, names)[names[e.data] := e.data];
    DirAt(D, names, pos);
    forall p
      ensures p in m <==> p in n
      ensures p in m && p in n ==> m[p] == n[p]
    {
      if p in m {
        var i := DirFind(D, names, p);
        if i != pos {
          DirAt(C, names, if i < pos then i else i - 1);
        }
      } else if p in n && p != names[e.data] {
        var i := DirFind(C, names, p);
        DirAt(D, names, if i < pos then i else i + 1);
      }
    }
  }

  // A new file entry block does not change what a tree says.
  lemma {:induction false} DirExtend(C: seq<Entry>, names: Names, b: nat, p: string)
    requires Unique(C, names) && b !in names
    ensures Unique(C, names[b := p]) && Dir(C, names[b := p]) == Dir(C, names)
  {
    var N := names[b := p];
    assert forall i :: 0 <= i < |C| ==> N[C[i].data] == names[C[i].data];
  }

  // One more entry of a list.
  lemma {:induction false} DirSnoc(C: seq<Entry>, names: Names, n: nat)
    requires Unique(C, names) && n < |C|
    ensures Unique(C[..n], names) && Unique(C[..n + 1], names) && names[C[n].data] !in Dir(C[..n], names)
    ensures Dir(C[..n + 1], names) == Dir(C[..n], names)[names[C[n].data] := C[n].data]
  {
    DirPut(C[..n], names, n, C[n]);
    assert InsertAt(C[..n], n, C[n]) == C[..n + 1];
  }

  // ---- what a transaction has staged ----

  // Contents of the committed directory and of the transaction's three trees: files added, listed
  // like the directory; committed files rewritten, old block to new block; committed files removed,
  // old block to itself.
  datatype Changes = Changes(files: seq<Entry>, added: seq<Entry>, updated: seq<Entry>, removed: seq<Entry>,
    names: Names)

  ghost predicate Lists(s: Changes)
  {
    Unique(s.files, s.names) && Unique(s.added, s.names) && Unique(s.updated, s.names) && Unique(s.removed, s.names)
  }

  // The committed entry that a staged change is about.
  ghost predicate About(M: map<string, nat>, names: Names, e: Entry)
  {
    e.data in names && names[e.data] in M && M[names[e.data]] == e.key
  }

  // The changes fit the committed directory.
  ghost predicate Staged(s: Changes, hash: string -> nat)
  {
    && Lists(s) && Hashed(s.files, s.names, hash) && Hashed(s.added, s.names, hash)
    && (forall i :: 0 <= i < |s.updated| ==>
         About(Dir(s.files, s.names), s.names, s.updated[i]) && s.updated[i].key != s.updated[i].data)
    && (forall i :: 0 <= i < |s.removed| ==>
         About(Dir(s.files, s.names), s.names, s.removed[i]) && s.removed[i].key == s.removed[i].data)
    && Dir(s.updated, s.names).Keys !! Dir(s.removed, s.names).Keys
  }

  // The committed files as the transaction sees them.
  ghost function Remaining(s: Changes): map<string, nat>
    requires Lists(s)
  {
    (Dir(s.files, s.names) + Dir(s.updated, s.names)) - Dir(s.removed, s.names).Keys
  }

  // All files as the transaction sees them.
  ghost function Visible(s: Changes): map<string, nat>
    requires Lists(s)
  {
    Remaining(s) + Dir(s.added, s.names)
  }

  // No file was added over one that exists.
  ghost predicate Apart(s: Changes)
    requires Lists(s)
  {
    Dir(s.added, s.names).Keys !! Remaining(s).Keys
  }

  lemma {:induction false} Extended(s: Changes, hash: string -> nat, b: nat, p: string, s': Changes)
    requires Staged(s, hash) && b !in s.names && s' == s.(names := s.names[b := p])
    ensures Staged(s', hash) && Remaining(s') == Remaining(s) && Visible(s') == Visible(s) && (Apart(s) ==> Apart(s'))
    ensures Dir(s'.files, s'.names) == Dir(s.files, s.names) && Dir(s'.added, s'.names) == Dir(s.added, s.names)
    ensures Dir(s'.updated, s'.names) == Dir(s.updated, s.names) && Dir(s'.removed, s'.names) == Dir(s.removed, s.names)
  {
    hide Dir;
    DirExtend(s.files, s.names, b, p);
    DirExtend(s.added, s.names, b, p);
    DirExtend(s.updated, s.names, b, p);
    DirExtend(s.removed, s.names, b, p);
    forall i | 0 <= i < |s.updated|
      ensures About(Dir(s'.files, s'.names), s'.names, s'.updated[i]) && s'.updated[i].key != s'.updated[i].data
    {
      assert About(Dir(s.files, s.names), s.names, s.updated[i]);
    }
    forall i | 0 <= i < |s.removed|
      ensures About(Dir(s'.files, s'.names), s'.names, s'.removed[i]) && s'.removed[i].key == s'.removed[i].data
    {
      assert About(Dir(s.files, s.names), s.names, s.removed[i]);
    }
  }

  lemma DirName(C: seq<Entry>, names: Names, p: string)
    requires Unique(C, names) && p in Dir(C, names)
    ensures Dir(C, names)[p] in names && names[Dir(C, names)[p]] == p
  {
    var i := DirFind(C, names, p);
  }

  // A staged change is found by the block of the committed file it is about.
  lemma {:induction false} FoundByBlock(C: seq<Entry>, names: Names, X: seq<Entry>, p: string, b: nat)
    requires Unique(C, names) && Unique(X, names) && p in Dir(C, names) && b == Dir(C, names)[p]
    requires forall i :: 0 <= i < |X| ==> About(Dir(C, names), names, X[i])
    ensures forall i :: 0 <= i < |X| ==> (X[i].key == b <==> names[X[i].data] == p)
    ensures p in Dir(X, names) <==> exists i :: 0 <= i < |X| && X[i].key == b
    ensures forall i :: 0 <= i < |X| && X[i].key == b ==> p in Dir(X, names) && Dir(X, names)[p] == X[i].data
  {
    hide Dir;
    DirName(C, names, p);
    forall i | 0 <= i < |X|
      ensures X[i].key == b <==> names[X[i].data] == p
      ensures X[i].key == b ==> p in Dir(X, names) && Dir(X, names)[p] == X[i].data
    {
      assert About(Dir(C, names), names, X[i]);
      DirName(C, names, names[X[i].data]);
      DirAt(X, names, i);
    }
    if p in Dir(X, names) {
      var i := DirFind(X, names, p);
      assert X[i].key == b;
    }
  }

  // file_create: a new path is listed.
  lemma {:induction false} CreateStep(s: Changes, hash: string -> nat, p: string, b: nat, pos: nat, s': Changes)
    requires Staged(s, hash) && Apart(s) && b !in s.names && p !in Visible(s) && pos <= |s.added|
    requires s' == s.(names := s.names[b := p], added := InsertAt(s.added, pos, Entry(PathHash(hash, p), b)))
    ensures Staged(s', hash) && Apart(s') && Visible(s') == Visible(s)[p := b]
  {
    hide Dir, Unique;
    var x := s.(names := s.names[b := p]);
    Extended(s, hash, b, p, x);
    DirPut(x.added, x.names, pos, Entry(PathHash(hash, p), b));
    forall i | 0 <= i < |s'.added|
      ensures s'.added[i].data in s'.names && s'.added[i].key == PathHash(hash, s'.names[s'.added[i].data])
    {
      DirAt(s'.added, s'.names, i);
      assert i != pos ==> s'.added[i] == x.added[if i < pos then i else i - 1];
    }
  }

  // file_delete of a file this transaction created.
  lemma {:induction false} UncreateStep(s: Changes, hash: string -> nat, pos: nat, s': Changes)
    requires Staged(s, hash) && Apart(s) && pos < |s.added| && s' == s.(added := RemoveAt(s.added, pos))
    ensures Staged(s', hash) && Apart(s') && s.added[pos].data in s.names
            && Visible(s') == Visible(s) - {s.names[s.added[pos].data]}
  {
    hide Dir, Unique;
    DirAt(s.added, s.names, pos);
    DirDrop(s.added, s.names, pos);
    forall i | 0 <= i < |s'.added|
      ensures s'.added[i].data in s'.names && s'.added[i].key == PathHash(hash, s'.names[s'.added[i].data])
    {
      DirAt(s'.added, s'.names, i);
      assert s'.added[i] == s.added[if i < pos then i else i + 1];
    }
  }

  lemma {:induction false} UpdateStaged(s: Changes, hash: string -> nat, p: string, b: nat, pos: nat, s': Changes)
    requires Staged(s, hash) && b !in s.names && p in Dir(s.files, s.names) && p !in Dir(s.updated, s.names)
             && p !in Dir(s.removed, s.names)
    requires pos <= |s.updated|
             && s' == s.(names := s.names[b := p],
                updated := InsertAt(s.updated, pos, Entry(Dir(s.files, s.names)[p], b)))
    ensures Staged(s', hash) && Dir(s'.files, s'.names) == Dir(s.files, s.names)
            && Dir(s'.added, s'.names) == Dir(s.added, s.names)
    ensures Dir(s'.updated, s'.names) == Dir(s.updated, s.names)[p := b]
            && Dir(s'.removed, s'.names) == Dir(s.removed, s.names)
  {
    hide Dir, Unique;
    var x := s.(names := s.names[b := p]);
    Extended(s, hash, b, p, x);
    DirPut(x.updated, x.names, pos, Entry(Dir(s.files, s.names)[p], b));
    DirName(s.files, s.names, p);
    forall i | 0 <= i < |s'.updated|
      ensures About(Dir(s'.files, s'.names), s'.names, s'.updated[i]) && s'.updated[i].key != s'.updated[i].data
    {
      assert i != pos ==> s'.updated[i] == x.updated[if i < pos then i else i - 1];
    }
  }

  lemma ReplaceIn(M: map<string, nat>, U: map<string, nat>, R: set<string>, A: map<string, nat>, p: string, b: nat)
    requires p in M && p !in R && p !in A
    ensures (M + U[p := b]) - R + A == ((M + U) - R + A)[p := b] && ((M + U[p := b]) - R).Keys == ((M + U) - R).Keys
  {
  }

  // The first change of a committed file: its entry is copied to block b.
  lemma {:induction false} UpdateStep(s: Changes, hash: string -> nat, p: string, b: nat, pos: nat, s': Changes)
    requires Staged(s, hash) && Apart(s) && b !in s.names && p in Remaining(s) && p in Dir(s.files, s.names)
             && p !in Dir(s.updated, s.names)
    requires pos <= |s.updated|
             && s' == s.(names := s.names[b := p],
                updated := InsertAt(s.updated, pos, Entry(Dir(s.files, s.names)[p], b)))
    ensures Staged(s', hash) && Apart(s') && Visible(s') == Visible(s)[p := b]
  {
    hide Dir, Unique, Staged, About;
    StagedLists(s, hash);
    UpdateStaged(s, hash, p, b, pos, s');
    StagedLists(s', hash);
    ReplaceIn(Dir(s.files, s.names), Dir(s.updated, s.names), Dir(s.removed, s.names).Keys, Dir(s.added, s.names), p,
      b);
  }

  lemma StagedLists(s: Changes, hash: string -> nat)
    requires Staged(s, hash)
    ensures Lists(s)
  {
  }

  lemma {:induction false} NothingStaged(C: seq<Entry>, names: Names, hash: string -> nat)
    requires Unique(C, names) && Hashed(C, names, hash)
    ensures var s := Changes(C, [], [], [], names); Staged(s, hash) && Apart(s) && Visible(s) == Dir(C, names)
  {
    assert Dir([], names) == map[];
  }

  // The changes of a committed file are taken back.
  lemma {:induction false} RevertStep(s: Changes, hash: string -> nat, pos: nat, s': Changes)
    requires Staged(s, hash) && pos < |s.updated| && s' == s.(updated := RemoveAt(s.updated, pos))
    ensures Staged(s', hash) && Remaining(s').Keys == Remaining(s).Keys && s.updated[pos].data in s.names
    ensures var p := s.names[s.updated[pos].data];
            Dir(s'.updated, s'.names) == Dir(s.updated, s.names) - {p} && Remaining(s') - {p} == Remaining(s) - {p}
  {
    hide Dir, Unique;
    DirAt(s.updated, s.names, pos);
    DirDrop(s.updated, s.names, pos);
    assert About(Dir(s.files, s.names), s.names, s.updated[pos]);
    forall i | 0 <= i < |s'.updated|
      ensures About(Dir(s'.files, s'.names), s'.names, s'.updated[i]) && s'.updated[i].key != s'.updated[i].data
    {
      assert s'.updated[i] == s.updated[if i < pos then i else i + 1];
    }
  }

  // A committed file is listed as removed.
  lemma {:induction false} RemoveStep(s: Changes, hash: string -> nat, p: string, b: nat, pos: nat, s': Changes)
    requires Staged(s, hash) && p in Remaining(s) && p !in Dir(s.updated, s.names) && pos <= |s.removed|
    requires p in Dir(s.files, s.names) && b == Dir(s.files, s.names)[p]
             && s' == s.(removed := InsertAt(s.removed, pos, Entry(b, b)))
    ensures Staged(s', hash) && Remaining(s') == Remaining(s) - {p}
  {
    hide Dir, Unique;
    DirName(s.files, s.names, p);
    DirPut(s.removed, s.names, pos, Entry(b, b));
    forall i | 0 <= i < |s'.removed|
      ensures About(Dir(s'.files, s'.names), s'.names, s'.removed[i]) && s'.removed[i].key == s'.removed[i].data
    {
      assert i != pos ==> s'.removed[i] == s.removed[if i < pos then i else i - 1];
    }
  }

  lemma {:induction false} DeleteStep(s: Changes, p: string, s': Changes)
    requires Lists(s) && Lists(s') && Apart(s) && s'.added == s.added && s'.names == s.names
             && p !in Dir(s.added, s.names)
    requires Remaining(s') == Remaining(s) - {p}
    ensures Apart(s') && Visible(s') == Visible(s) - {p}
  {
    hide Dir, Unique;
  }

  // ---- applying the changes to a copy of the directory ----

  // The tree with contents C says M.
  ghost predicate Says(C: seq<Entry>, names: Names, hash: string -> nat, M: map<string, nat>)
  {
    Unique(C, names) && Hashed(C, names, hash) && Dir(C, names) == M
  }

  // The entry for a path.
  lemma SaysEntry(C: seq<Entry>, names: Names, hash: string -> nat, M: map<string, nat>, p: string)
    requires Says(C, names, hash, M) && p in M
    ensures Entry(PathHash(hash, p), M[p]) in C && M[p] in names && names[M[p]] == p
  {
    var i := DirFind(C, names, p);
    assert C[i] == Entry(PathHash(hash, p), M[p]);
  }

  lemma {:induction false} SaysSet(C: seq<Entry>, names: Names, hash: string -> nat, M: map<string, nat>, pos: nat,
                                   b: nat)
    requires Says(C, names, hash, M) && pos < |C| && b in names && C[pos].data in names
             && names[b] == names[C[pos].data]
    ensures Says(C[pos := Entry(C[pos].key, b)], names, hash, M[names[b] := b])
  {
    DirSet(C, names, pos, Entry(C[pos].key, b));
  }

  lemma {:induction false} SaysDrop(C: seq<Entry>, names: Names, hash: string -> nat, M: map<string, nat>, pos: nat)
    requires Says(C, names, hash, M) && pos < |C| && C[pos].data in names
    ensures Says(RemoveAt(C, pos), names, hash, M - {names[C[pos].data]})
  {
    var D := RemoveAt(C, pos);
    DirDrop(C, names, pos);
    forall i | 0 <= i < |D|
      ensures D[i].key == PathHash(hash, names[D[i].data])
    {
      assert D[i] == C[if i < pos then i else i + 1];
    }
  }

  lemma {:induction false} SaysPut(C: seq<Entry>, names: Names, hash: string -> nat, M: map<string, nat>, pos: nat,
                                   b: nat)
    requires Says(C, names, hash, M) && pos <= |C| && b in names && names[b] !in M
    ensures Says(InsertAt(C, pos, Entry(PathHash(hash, names[b]), b)), names, hash, M[names[b] := b])
  {
    var e := Entry(PathHash(hash, names[b]), b);
    var D := InsertAt(C, pos, e);
    DirPut(C, names, pos, e);
    forall i | 0 <= i < |D|
      ensures D[i].key == PathHash(hash, names[D[i].data])
    {
      assert i != pos ==> D[i] == C[if i < pos then i else i - 1];
    }
  }

  // The n-th change of a list is about a path that the earlier ones are not about.
  lemma {:induction false} NextChange(X: seq<Entry>, names: Names, n: nat, M: map<string, nat>)
    requires Unique(X, names) && n < |X|
    ensures Unique(X[..n], names) && Unique(X[..n + 1], names) && X[n].data in names
    ensures var p := names[X[n].data];
            && p !in Dir(X[..n], names) && p in Dir(X, names)
            && M + Dir(X[..n + 1], names) == (M + Dir(X[..n], names))[p := X[n].data]
            && M - Dir(X[..n + 1], names).Keys == M - Dir(X[..n], names).Keys - {p}
  {
    hide Dir;
    DirSnoc(X, names, n);
    DirAt(X, names, n);
  }

  lemma {:induction false} NoChange(X: seq<Entry>, names: Names, M: map<string, nat>)
    requires Unique(X, names)
    ensures Unique(X[..0], names) && X[..|X|] == X && M + Dir(X[..0], names) == M && M - Dir(X[..0], names).Keys == M
  {
    assert Dir(X[..0], names) == map[];
  }

  // Another transaction has committed the directory C. The changes still fit exactly if it left
  // alone the files that they are about.
  lemma {:induction false} Rebased(s: Changes, hash: string -> nat, C: seq<Entry>, s': Changes)
    requires Staged(s, hash) && Unique(C, s.names) && Hashed(C, s.names, hash) && s' == s.(files := C)
    ensures Staged(s', hash) <==>
            forall p :: p in Dir(s.updated, s.names).Keys + Dir(s.removed, s.names).Keys ==>
                          p in Dir(C, s.names) && p in Dir(s.files, s.names)
                            && Dir(C, s.names)[p] == Dir(s.files, s.names)[p]
  {
    hide Dir, Unique;
    var U, R, M, N := s.updated, s.removed, Dir(s.files, s.names), Dir(C, s.names);
    forall p | p in Dir(U, s.names)
      ensures p in M && (Staged(s', hash) ==> p in N && N[p] == M[p])
    {
      var i := DirFind(U, s.names, p);
      assert About(M, s.names, s.updated[i]);
      assert Staged(s', hash) ==> About(N, s.names, s'.updated[i]);
    }
    forall p | p in Dir(R, s.names)
      ensures p in M && (Staged(s', hash) ==> p in N && N[p] == M[p])
    {
      var i := DirFind(R, s.names, p);
      assert About(M, s.names, s.removed[i]);
      assert Staged(s', hash) ==> About(N, s.names, s'.removed[i]);
    }
    forall i | 0 <= i < |U|
      ensures U[i].data in s.names && s.names[U[i].data] in Dir(U, s.names) && About(M, s.names, s.updated[i])
    {
      DirAt(U, s.names, i);
    }
    forall i | 0 <= i < |R|
      ensures R[i].data in s.names && s.names[R[i].data] in Dir(R, s.names) && About(M, s.names, s.removed[i])
    {
      DirAt(R, s.names, i);
    }
  }

  ghost function Keys(X: seq<Entry>): set<nat>
  {
    set i | 0 <= i < |X| :: X[i].key
  }

  ghost function Blocks(X: seq<Entry>): set<nat>
  {
    set i | 0 <= i < |X| :: X[i].data
  }

  // The committed file entry blocks that the transaction frees are exactly those of the staged changes.
  ghost predicate Frees(s: Changes, freed: set<nat>)
  {
    freed == Keys(s.updated) + Keys(s.removed)
  }

  // The file entry blocks that the transaction has allocated and still uses.
  ghost predicate Owns(s: Changes, own: set<nat>)
  {
    own == Blocks(s.added) + Blocks(s.updated)
  }

  lemma {:induction false} PutBlocks(X: seq<Entry>, pos: nat, e: Entry)
    requires pos <= |X|
    ensures Keys(InsertAt(X, pos, e)) == Keys(X) + {e.key} && Blocks(InsertAt(X, pos, e)) == Blocks(X) + {e.data}
  {
    var Y := InsertAt(X, pos, e);
    assert Y[pos] == e;
    forall i | 0 <= i < |X|
      ensures X[i].key in Keys(Y) && X[i].data in Blocks(Y)
    {
      assert X[i] == Y[if i < pos then i else i + 1];
    }
    forall i | 0 <= i < |Y| && i != pos
      ensures Y[i].key in Keys(X) && Y[i].data in Blocks(X)
    {
      assert Y[i] == X[if i < pos then i else i - 1];
    }
  }

  lemma {:induction false} DropBlocks(X: seq<Entry>, pos: nat)
    requires pos < |X|
    requires forall i :: 0 <= i < |X| && i != pos ==> X[i].data != X[pos].data
    ensures Blocks(RemoveAt(X, pos)) == Blocks(X) - {X[pos].data}
    ensures (forall i :: 0 <= i < |X| && i != pos ==> X[i].key != X[pos].key) ==>
              Keys(RemoveAt(X, pos)) == Keys(X) - {X[pos].key}
  {
    var Y := RemoveAt(X, pos);
    assert X == InsertAt(Y, pos, X[pos]);
    PutBlocks(Y, pos, X[pos]);
    forall i | 0 <= i < |Y|
      ensures exists j :: 0 <= j < |X| && j != pos && Y[i] == X[j]
    {
      var j := if i < pos then i else i + 1;
      assert Y[i] == X[j];
    }
  }

  // A block is not both a new file's and a rewritten one's.
  lemma {:induction false} OwnOnce(s: Changes, hash: string -> nat)
    requires Staged(s, hash) && Apart(s)
    ensures Blocks(s.added) !! Blocks(s.updated)
  {
    hide Dir;
    forall i, j | 0 <= i < |s.added| && 0 <= j < |s.updated|
      ensures s.added[i].data != s.updated[j].data
    {
      DirAt(s.added, s.names, i);
      DirAt(s.updated, s.names, j);
    }
  }

  // A withdrawn new file gives its block back.
  lemma {:induction false} DropAdded(s: Changes, hash: string -> nat, own: set<nat>, pos: nat)
    requires Staged(s, hash) && Apart(s) && Owns(s, own) && pos < |s.added|
    ensures Owns(s.(added := RemoveAt(s.added, pos)), own - {s.added[pos].data}) && s.added[pos].data in own
  {
    hide Dir;
    OwnOnce(s, hash);
    DropBlocks(s.added, pos);
  }

  // A withdrawn copy gives its block back, and the committed block is no longer freed for it.
  lemma {:induction false} DropUpdated(s: Changes, hash: string -> nat, freed: set<nat>, own: set<nat>, pos: nat)
    requires Staged(s, hash) && Apart(s) && Frees(s, freed) && Owns(s, own) && pos < |s.updated|
    ensures var s', e := s.(updated := RemoveAt(s.updated, pos)), s.updated[pos];
            Frees(s', freed - {e.key}) && Owns(s', own - {e.data}) && e.key in freed && e.data in own
  {
    hide Dir;
    OwnOnce(s, hash);
    var p := s.names[s.updated[pos].data];
    DirAt(s.updated, s.names, pos);
    assert About(Dir(s.files, s.names), s.names, s.updated[pos]);
    FoundByBlock(s.files, s.names, s.updated, p, s.updated[pos].key);
    FoundByBlock(s.files, s.names, s.removed, p, s.updated[pos].key);
    DropBlocks(s.updated, pos);
  }

  // A staged change of path p frees the committed block of p.
  lemma {:induction false} FreesPath(s: Changes, hash: string -> nat, freed: set<nat>, p: string)
    requires Staged(s, hash) && Frees(s, freed) && p in Dir(s.updated, s.names).Keys + Dir(s.removed, s.names).Keys
    ensures p in Dir(s.files, s.names) && Dir(s.files, s.names)[p] in freed
  {
    hide Dir, Unique;
    if p in Dir(s.updated, s.names) {
      var i := DirFind(s.updated, s.names, p);
      assert About(Dir(s.files, s.names), s.names, s.updated[i]);
    } else {
      var i := DirFind(s.removed, s.names, p);
      assert About(Dir(s.files, s.names), s.names, s.removed[i]);
    }
  }

  // The conflict test at the end of a commit is enough for the directory: if the transaction frees
  // no block that the commit of o frees, its changes still fit the directory that o leaves.
  lemma {:induction false} SurvivorStaged(s: Changes, o: Changes, hash: string -> nat, mine: set<nat>,
                                          theirs: set<nat>, C: seq<Entry>, s': Changes)
    requires Staged(s, hash) && Staged(o, hash) && s.files == o.files && s.names == o.names && Apart(o)
    requires Frees(s, mine) && Frees(o, theirs) && mine !! theirs
    requires Says(C, s.names, hash, Visible(o)) && s' == s.(files := C)
    ensures Staged(s', hash)
  {
    hide Dir, Unique, Staged, Hashed, Frees;
    StagedLists(s, hash);
    StagedLists(o, hash);
    SaysFacts(C, s.names, hash, Visible(o));
    Rebased(s, hash, C, s');
    forall p | p in Dir(s.updated, s.names).Keys + Dir(s.removed, s.names).Keys
      ensures p in Visible(o) && p in Dir(s.files, s.names) && Visible(o)[p] == Dir(s.files, s.names)[p]
    {
      FreesPath(s, hash, mine, p);
      if p in Dir(o.updated, o.names).Keys + Dir(o.removed, o.names).Keys {
        FreesPath(o, hash, theirs, p);
        assert false;
      }
    }
  }

  lemma SaysFacts(C: seq<Entry>, names: Names, hash: string -> nat, M: map<string, nat>)
    requires Says(C, names, hash, M)
    ensures Unique(C, names) && Hashed(C, names, hash) && Dir(C, names) == M
  {
  }
}
