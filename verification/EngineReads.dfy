// What a transaction reads and commits: over whole runs, exactly what it wrote and asked for.
module EngineReads {
  import opened SuperBlocks
  import opened Engine
  import Q = AllocQueue
  import A = AllocModel
  import M = Allocators

  // ---- reads ----

  // A write shows at once, and only at its block.
  lemma WriteReads(s: State, s': State, i: nat, b: nat, c: Content, x: nat)
    requires WriteBlock(s, s', i, b, c) && x in s.disk
    ensures x in s'.disk && View(s', x) == if x == b then c else View(s, x)
  {
  }

  // Writing back changes nothing that anybody sees.
  lemma WriteBackReads(s: State, s': State, b: nat, x: nat)
    requires WriteBack(s, s', b) && x in s.disk
    ensures x in s'.disk && View(s', x) == View(s, x)
  {
  }

  ghost predicate HeldBy(s: State, i: nat, b: nat) { i in s.active && b in Held(s.active[i]) }

  ghost predicate Wrote(s: State, s': State, i: nat, b: nat)
  {
    exists c :: WriteBlock(s, s', i, b, c)
  }

  lemma HeldDirty(fs: Fs, s: State, i: nat, b: nat)
    requires Inv(fs, s) && HeldBy(s, i, b)
    ensures b in s.disk && (b in s.cache ==> s.cache[b].id == i)
  {
    hide LogOk, OnDisk, NodesKept, MergingOk, WritingOk;
    assert Owns(fs, Now(s), s.active[i]);
    if b in s.cache {
      assert HeldBy(s, s.cache[b].id, b);
    }
  }

  // A step that leaves block b with transaction i changes what is seen there only by i writing to it.
  lemma {:induction false} HeldStep(fs: Fs, s: State, s': State, i: nat, b: nat)
    requires Inv(fs, s) && Next(fs, s, s') && HeldBy(s, i, b) && HeldBy(s', i, b)
    ensures b in s.disk && b in s'.disk && (Wrote(s, s', i, b) || View(s', b) == View(s, b))
  {
    HeldDirty(fs, s, i, b);
    hide Inv, Activate, Allocate, Free, WriteBlock, WriteBack, Fail, BeginCommit, FreeNode, StartCommit, FinishCommit,
      Crash, View, HeldBy, Wrote;
    if j, x, c :| WriteBlock(s, s', j, x, c) {
      HeldWrite(fs, s, s', i, b, j, x, c);
    } else if x :| WriteBack(s, s', x) {
      WriteBackReads(s, s', x, b);
    } else if j, x :| Free(fs, s, s', j, x) {
      HeldFree(fs, s, s', i, b, j, x);
    } else if j :| Fail(s, s', j) {
      HeldFail(fs, s, s', i, b, j);
    } else if users, error :| FinishCommit(s, s', users, error) {
      HeldFinish(fs, s, s', i, b, users, error);
    } else {
      HeldIdle(fs, s, s', i, b);
    }
  }

  lemma HeldWrite(fs: Fs, s: State, s': State, i: nat, b: nat, j: nat, x: nat, c: Content)
    requires Inv(fs, s) && WriteBlock(s, s', j, x, c) && HeldBy(s, i, b) && b in s.disk
    ensures b in s'.disk && (Wrote(s, s', i, b) || View(s', b) == View(s, b))
  {
    hide Inv;
    WriteReads(s, s', j, x, c, b);
    if x == b {
      SameHolder(fs, s, i, j, b);
    }
  }

  lemma HeldFree(fs: Fs, s: State, s': State, i: nat, b: nat, j: nat, x: nat)
    requires Inv(fs, s) && Free(fs, s, s', j, x) && HeldBy(s, i, b) && HeldBy(s', i, b) && b in s.disk
    ensures b in s'.disk && View(s', b) == View(s, b)
  {
    HoldsOnce(fs, s, j);
    if x == b && b in Held(s.active[j]) {
      SameHolder(fs, s, i, j, b);
    }
    hide Inv;
  }

  lemma HoldsOnce(fs: Fs, s: State, i: nat)
    requires Inv(fs, s) && i in s.active
    ensures s.active[i].alloc !! s.active[i].tmp
  {
    assert Owns(fs, Now(s), s.active[i]);
  }

  lemma HeldFail(fs: Fs, s: State, s': State, i: nat, b: nat, j: nat)
    requires Inv(fs, s) && Fail(s, s', j) && HeldBy(s, i, b) && HeldBy(s', i, b)
    ensures b in s.disk && b in s'.disk && View(s', b) == View(s, b)
  {
    HeldDirty(fs, s, i, b);
    hide Inv;
  }

  lemma HeldFinish(fs: Fs, s: State, s': State, i: nat, b: nat, users: set<nat>, error: bool)
    requires Inv(fs, s) && FinishCommit(s, s', users, error) && HeldBy(s, i, b) && HeldBy(s', i, b)
    ensures b in s.disk && b in s'.disk && View(s', b) == View(s, b)
  {
    HeldDirty(fs, s, i, b);
    hide Inv;
  }

  // The other steps leave cache and disk alone, or no transaction.
  lemma HeldIdle(fs: Fs, s: State, s': State, i: nat, b: nat)
    requires Next(fs, s, s') && HeldBy(s', i, b) && b in s.disk
    requires !(exists j, x, c :: WriteBlock(s, s', j, x, c)) && !(exists x :: WriteBack(s, s', x))
    requires !(exists j, x :: Free(fs, s, s', j, x)) && !(exists j :: Fail(s, s', j))
    requires !(exists users, error :: FinishCommit(s, s', users, error))
    ensures b in s'.disk && View(s', b) == View(s, b)
  {
    hide Free, WriteBlock, WriteBack, Fail, FinishCommit;
  }

  lemma SameHolder(fs: Fs, s: State, i: nat, j: nat, b: nat)
    requires Inv(fs, s) && HeldBy(s, i, b) && HeldBy(s, j, b)
    ensures i == j
  {
    hide LogOk, OnDisk, NodesKept, MergingOk, WritingOk, AllOwn, CacheOk;
  }

  lemma WroteReads(s: State, s': State, i: nat, b: nat)
    requires b in s.disk
    ensures forall c: Content :: WriteBlock(s, s', i, b, c) ==> b in s'.disk && View(s', b) == c
  {
  }

  // ---- writes over runs ----

  ghost predicate HeldDuring(r: seq<State>, p: nat, q: nat, i: nat, b: nat)
  {
    p <= q < |r| && forall n :: p <= n <= q ==> HeldBy(r[n], i, b)
  }

  // What transaction i last wrote to block b between states p and q.
  ghost function LastWrite(r: seq<State>, p: nat, q: nat, i: nat, b: nat): Option<Content>
    requires p <= q < |r|
    decreases q
  {
    if p == q then None
    else if Wrote(r[q - 1], r[q], i, b) then
      var c: Content :| WriteBlock(r[q - 1], r[q], i, b, c);
      Some(c)
    else LastWrite(r, p, q - 1, i, b)
  }

  function Or(w: Option<Content>, c: Content): Content { if w.Some? then w.value else c }

  // A transaction reads what it wrote last, whatever else happens in between.
  lemma {:induction false} ReadsOwnWrites(fs: Fs, r: seq<State>, p: nat, q: nat, i: nat, b: nat)
    requires Run(fs, r) && GeometryOk(fs.dev, fs.geometry) && HeldDuring(r, p, q, i, b)
    ensures b in r[p].disk && b in r[q].disk && View(r[q], b) == Or(LastWrite(r, p, q, i, b), View(r[p], b))
    decreases q
  {
    hide Inv, Next, Init, WriteBlock;
    if p == q {
      RunInv(fs, r, p);
      HeldDirty(fs, r[p], i, b);
    } else {
      ReadsOwnWrites(fs, r, p, q - 1, i, b);
      RunInv(fs, r, q - 1);
      assert Next(fs, r[q - 1], r[q - 1 + 1]);
      assert HeldBy(r[q - 1], i, b) && HeldBy(r[q], i, b);
      HeldStep(fs, r[q - 1], r[q], i, b);
      if Wrote(r[q - 1], r[q], i, b) {
        WroteReads(r[q - 1], r[q], i, b);
      }
    }
  }

  // The commit has, in every block it uses, what its transaction wrote there last, or for a block
  // it did not allocate what was committed before.
  lemma {:induction false} CommitsOwnWrites(fs: Fs, r: seq<State>, p: nat, q: nat, nodes: set<nat>, iv: Bytes,
                                            free: Bytes,
                                            files: Bytes, b: nat)
    requires Run(fs, r) && GeometryOk(fs.dev, fs.geometry) && p <= q < |r| - 1
    requires StartCommit(fs, r[q], r[q + 1], nodes, iv, free, files) && b in r[q + 1].phase.image.data
    ensures var i, t, c := r[q].phase.id, r[q].active[r[q].phase.id], r[q + 1].phase.image.data[b];
            && b in r[q + 1].disk && r[q + 1].disk[b] == c
            && (b !in t.alloc ==> b in Now(r[q]).data && c == Now(r[q]).data[b])
            && (b in t.alloc && HeldDuring(r, p, q, i, b) ==>
                  b in r[p].disk && c == Or(LastWrite(r, p, q, i, b), View(r[p], b)))
  {
    hide Run, Inv;
    var i, t := r[q].phase.id, r[q].active[r[q].phase.id];
    RunInv(fs, r, q);
    CommitImage(fs, r[q], r[q + 1], nodes, iv, free, files, b);
    if b !in t.alloc {
      CommittedReads(fs, r, q, b);
    } else if HeldDuring(r, p, q, i, b) {
      ReadsOwnWrites(fs, r, p, q, i, b);
    }
  }

  // The new image is what the transaction sees, and is on disk.
  lemma {:induction false} CommitImage(fs: Fs, s: State, s': State, nodes: set<nat>, iv: Bytes, free: Bytes,
                                       files: Bytes, b: nat)
    requires Inv(fs, s) && StartCommit(fs, s, s', nodes, iv, free, files) && b in s'.phase.image.data
    ensures b in s.disk && b in s'.disk && s'.phase.image.data[b] == View(s, b) == s'.disk[b]
    ensures b !in s.active[s.phase.id].alloc ==> b in Now(s).data
  {
    StartInv(fs, s, s', nodes, iv, free, files);
    hide LogOk, Build, IsSuper;
  }

  // From then on readers see it, through crashes and mounts, until the next commit.
  lemma {:induction false} WritesSurvive(fs: Fs, r: seq<State>, p: nat, q: nat, n: nat, nodes: set<nat>, iv: Bytes,
                                         free: Bytes,
                                         files: Bytes, b: nat)
    requires Run(fs, r) && GeometryOk(fs.dev, fs.geometry) && p <= q < n < |r| && r[n].done != []
    requires StartCommit(fs, r[q], r[q + 1], nodes, iv, free, files) && b in r[q + 1].phase.image.data
    requires Now(r[n]) == r[q + 1].phase.image && b in r[q].active[r[q].phase.id].alloc
             && HeldDuring(r, p, q, r[q].phase.id, b)
    ensures b in r[n].disk && b in r[p].disk && View(r[n], b) == Or(LastWrite(r, p, q, r[q].phase.id, b), View(r[p], b))
  {
    hide Run;
    CommitsOwnWrites(fs, r, p, q, nodes, iv, free, files, b);
    CommittedReads(fs, r, n, b);
  }

  // Which transactions outlive a commit, and what is left of the work of the others.
  lemma {:induction false} SurvivesExactly(fs: Fs, s: State, s': State, users: set<nat>, error: bool, j: nat)
    requires Inv(fs, s) && FinishCommit(s, s', users, error) && j in s.active
    ensures j in s'.active <==>
            j != s.phase.id && !error && j !in users && s.active[j].freed !! s.active[s.phase.id].freed
    ensures j in s'.active ==> s'.active[j] == s.active[j]
    ensures forall b :: b in Held(s.active[j]) ==>
              b in s.disk && b in s'.disk && View(s', b) == if j in s'.active then View(s, b) else s.disk[b]
  {
    forall b | b in Held(s.active[j])
      ensures b in s.disk && b in s'.disk && View(s', b) == if j in s'.active then View(s, b) else s.disk[b]
    {
      assert HeldBy(s, j, b);
      HeldDirty(fs, s, j, b);
    }
  }

  // After power loss no transaction is left, the mount starts from the last commit or from the one
  // being written, and every block of that commit reads as committed.
  lemma {:induction false} CrashForgets(fs: Fs, s: State, s': State, k: nat, disk: map<nat, Content>)
    requires Inv(fs, s) && Crash(s, s', k, disk)
    ensures s'.active == map[] && s'.done != []
    ensures Now(s') == Now(s) || (s.phase.Writing? && Now(s') == s.phase.image)
    ensures |s'.supers| == |s'.done| && |s'.slots| == 2 && |s'.slots[0]| == |s'.slots[1]| == SIZE
    ensures Chosen(fs.dev, s'.slots) == if Last(s') == 0 then None else Some(s'.supers[Last(s')])
    ensures forall b :: b in Now(s').data ==> b in s'.disk && View(s', b) == Now(s').data[b]
  {
    hide Inv, Chosen;
    CrashInv(fs, s, s', k, disk);
    InvLoads(fs, s');
  }

  // ---- requests over runs ----

  // What transaction i asked the allocator for in this step.
  ghost function Asks(fs: Fs, s: State, s': State, i: nat): seq<A.Asked>
  {
    if exists b, tmp :: Allocate(s, s', i, b, tmp) then
      var b, tmp :| Allocate(s, s', i, b, tmp);
      [A.Asked(Q.Item(b, tmp, false, false), false)]
    else if exists b :: Free(fs, s, s', i, b) then
      var b :| Free(fs, s, s', i, b);
      [A.Asked(Q.Item(b, b in s.active[i].tmp, true, false), false)]
    else if s.phase.Merging? && s.phase.id == i && exists b, behind :: FreeNode(s, s', b, behind) then
      var b, behind :| FreeNode(s, s', b, behind);
      [A.Asked(Q.Item(b, false, true, false), false)]
    else []
  }

  ghost function Log(fs: Fs, r: seq<State>, p: nat, q: nat, i: nat): seq<A.Asked>
    requires p <= q < |r|
    decreases q
  {
    if p == q then [] else Log(fs, r, p, q - 1, i) + Asks(fs, r[q - 1], r[q], i)
  }

  // Nodes of the committed free tree that transaction i has freed.
  function Gone(s: State, i: nat): set<nat> { if s.phase.Merging? && s.phase.id == i then s.phase.gone else {} }

  // The transaction's sets are what the requests add up to.
  ghost predicate AddsUp(h: A.Held, s: State, i: nat)
  {
    i in s.active && h.alloc == s.active[i].alloc && h.tmp == s.active[i].tmp
      && h.gone == s.active[i].freed + Gone(s, i)
  }

  lemma TotalOne(h: A.Held, log: seq<A.Asked>, x: A.Asked)
    ensures A.Total(h, log + [x]) == A.After(A.Total(h, log), x)
  {
    assert (log + [x])[..|log|] == log;
  }

  lemma {:induction false} AddsUpStep(fs: Fs, s: State, s': State, i: nat, start: A.Held, log: seq<A.Asked>)
    requires Inv(fs, s) && Next(fs, s, s') && i in s.active && i in s'.active && AddsUp(A.Total(start, log), s, i)
    requires !(s.phase.Writing? && s.phase.id == i) && !(s'.phase.Writing? && s'.phase.id == i)
    ensures AddsUp(A.Total(start, log + Asks(fs, s, s', i)), s', i)
  {
    hide Inv, Next, Allocate, Free, FreeNode, A.Total, A.After, AddsUp;
    var h := A.Total(start, log);
    if exists b, tmp :: Allocate(s, s', i, b, tmp) {
      var b, tmp := AsksAllocate(fs, s, s', i);
      TotalOne(start, log, A.Asked(Q.Item(b, tmp, false, false), false));
      AllocateAdds(s, s', i, b, tmp, h);
    } else if exists b :: Free(fs, s, s', i, b) {
      var b := AsksFree(fs, s, s', i);
      TotalOne(start, log, A.Asked(Q.Item(b, b in s.active[i].tmp, true, false), false));
      FreeAdds(fs, s, s', i, b, h);
    } else if s.phase.Merging? && s.phase.id == i && exists b, behind :: FreeNode(s, s', b, behind) {
      var b, behind := AsksNode(fs, s, s', i);
      TotalOne(start, log, A.Asked(Q.Item(b, false, true, false), false));
      NodeAdds(fs, s, s', i, b, behind, h);
    } else {
      OtherAdds(fs, s, s', i, h);
      assert log + [] == log;
    }
  }

  lemma AsksAllocate(fs: Fs, s: State, s': State, i: nat) returns (b: nat, tmp: bool)
    requires exists b, tmp :: Allocate(s, s', i, b, tmp)
    ensures Allocate(s, s', i, b, tmp) && Asks(fs, s, s', i) == [A.Asked(Q.Item(b, tmp, false, false), false)]
  {
    hide Allocate, Free, FreeNode;
    b, tmp :| Allocate(s, s', i, b, tmp) && Asks(fs, s, s', i) == [A.Asked(Q.Item(b, tmp, false, false), false)];
  }

  lemma AsksFree(fs: Fs, s: State, s': State, i: nat) returns (b: nat)
    requires i in s.active && !(exists b, tmp :: Allocate(s, s', i, b, tmp)) && exists b :: Free(fs, s, s', i, b)
    ensures Free(fs, s, s', i, b)
    ensures Asks(fs, s, s', i) == [A.Asked(Q.Item(b, b in s.active[i].tmp, true, false), false)]
  {
    hide Allocate, Free, FreeNode;
    b :| Free(fs, s, s', i, b) && Asks(fs, s, s', i) == [A.Asked(Q.Item(b, b in s.active[i].tmp, true, false), false)];
  }

  lemma AsksNode(fs: Fs, s: State, s': State, i: nat) returns (b: nat, behind: bool)
    requires !(exists b, tmp :: Allocate(s, s', i, b, tmp)) && !(exists b :: Free(fs, s, s', i, b))
    requires s.phase.Merging? && s.phase.id == i && exists b, behind :: FreeNode(s, s', b, behind)
    ensures FreeNode(s, s', b, behind) && Asks(fs, s, s', i) == [A.Asked(Q.Item(b, false, true, false), false)]
  {
    hide Allocate, Free, FreeNode;
    b, behind :| FreeNode(s, s', b, behind) && Asks(fs, s, s', i) == [A.Asked(Q.Item(b, false, true, false), false)];
  }

  lemma AllocateAdds(s: State, s': State, i: nat, b: nat, tmp: bool, h: A.Held)
    requires Allocate(s, s', i, b, tmp) && AddsUp(h, s, i)
    ensures AddsUp(A.After(h, A.Asked(Q.Item(b, tmp, false, false), false)), s', i)
  {
  }

  lemma FreeAdds(fs: Fs, s: State, s': State, i: nat, b: nat, h: A.Held)
    requires Free(fs, s, s', i, b) && AddsUp(h, s, i)
    ensures AddsUp(A.After(h, A.Asked(Q.Item(b, b in s.active[i].tmp, true, false), false)), s', i)
  {
  }

  lemma NodeAdds(fs: Fs, s: State, s': State, i: nat, b: nat, behind: bool, h: A.Held)
    requires Inv(fs, s) && FreeNode(s, s', b, behind) && AddsUp(h, s, i) && s.phase.id == i
    ensures AddsUp(A.After(h, A.Asked(Q.Item(b, false, true, false), false)), s', i)
  {
    assert Owns(fs, Now(s), s.active[i]);
    hide LogOk, OnDisk;
  }

  // A step in which i asks for nothing leaves its sets alone.
  lemma {:induction false} OtherAdds(fs: Fs, s: State, s': State, i: nat, h: A.Held)
    requires Next(fs, s, s') && i in s'.active && AddsUp(h, s, i)
    requires !(s.phase.Writing? && s.phase.id == i) && !(s'.phase.Writing? && s'.phase.id == i)
    requires !(exists b, tmp :: Allocate(s, s', i, b, tmp)) && !(exists b :: Free(fs, s, s', i, b))
    requires !(s.phase.Merging? && s.phase.id == i && exists b, behind :: FreeNode(s, s', b, behind))
    ensures AddsUp(h, s', i)
  {
    hide WriteBlock, WriteBack, Crash, FinishCommit, StartCommit;
    if users, error :| FinishCommit(s, s', users, error) {
      FinishKeeps(s, s', i, users, error);
    } else if nodes, iv, free, files :| StartCommit(fs, s, s', nodes, iv, free, files) {
      StartKeeps(fs, s, s', i, nodes, iv, free, files);
    } else if j, b, c :| WriteBlock(s, s', j, b, c) {
      WriteKeeps(s, s', j, b, c);
    } else if b :| WriteBack(s, s', b) {
      BackKeeps(s, s', b);
    } else if k, disk :| Crash(s, s', k, disk) {
      CrashEnds(s, s', k, disk);
    }
  }

  lemma FinishKeeps(s: State, s': State, i: nat, users: set<nat>, error: bool)
    requires FinishCommit(s, s', users, error) && i in s'.active && i in s.active
    ensures s'.active[i] == s.active[i] && Gone(s', i) == Gone(s, i) == {}
  {
  }

  lemma StartKeeps(fs: Fs, s: State, s': State, i: nat, nodes: set<nat>, iv: Bytes, free: Bytes, files: Bytes)
    requires StartCommit(fs, s, s', nodes, iv, free, files) && !(s'.phase.Writing? && s'.phase.id == i)
    ensures s'.active == s.active && Gone(s', i) == Gone(s, i)
  {
  }

  lemma WriteKeeps(s: State, s': State, j: nat, b: nat, c: Content)
    requires WriteBlock(s, s', j, b, c)
    ensures s'.active == s.active && s'.phase == s.phase
  {
  }

  lemma BackKeeps(s: State, s': State, b: nat)
    requires WriteBack(s, s', b)
    ensures s'.active == s.active && s'.phase == s.phase
  {
  }

  lemma CrashEnds(s: State, s': State, k: nat, disk: map<nat, Content>)
    requires Crash(s, s', k, disk)
    ensures s'.active == map[]
  {
  }

  // Transaction i is active from state p to q and does not write a super block.
  ghost predicate ActiveDuring(r: seq<State>, p: nat, q: nat, i: nat)
  {
    p <= q < |r| && forall n :: p <= n <= q ==> i in r[n].active && !(r[n].phase.Writing? && r[n].phase.id == i)
  }

  // From its start on, a transaction's sets are what its requests add up to.
  lemma {:induction false} RequestsAddUp(fs: Fs, r: seq<State>, p: nat, q: nat, i: nat)
    requires Run(fs, r) && GeometryOk(fs.dev, fs.geometry) && ActiveDuring(r, p, q, i)
    requires r[p].active[i] == Tr({}, {}, {}) && r[p].phase.Idle?
    ensures AddsUp(A.Total(A.Held({}, {}, {}, {}), Log(fs, r, p, q, i)), r[q], i)
    decreases q
  {
    hide Inv, Next, Init, Asks;
    if p < q {
      RequestsAddUp(fs, r, p, q - 1, i);
      RunInv(fs, r, q - 1);
      assert Next(fs, r[q - 1], r[q - 1 + 1]);
      AddsUpStep(fs, r[q - 1], r[q], i, A.Held({}, {}, {}, {}), Log(fs, r, p, q - 1, i));
    }
  }

  // The free set that is committed: what was free and is not allocated for good, and all that was
  // freed, over all requests of the transaction. It is the set that the merge of the free sets builds
  // from the same requests, with the temporary blocks back in it.
  lemma {:induction false} CommitsFreeSet(fs: Fs, r: seq<State>, p: nat, q: nat, nodes: set<nat>, iv: Bytes,
                                          free: Bytes,
                                          files: Bytes)
    requires Run(fs, r) && GeometryOk(fs.dev, fs.geometry) && q < |r| - 1
    requires StartCommit(fs, r[q], r[q + 1], nodes, iv, free, files)
    requires ActiveDuring(r, p, q, r[q].phase.id) && r[p].active[r[q].phase.id] == Tr({}, {}, {}) && r[p].phase.Idle?
    ensures var h, m, image := A.Total(A.Held({}, {}, {}, {}), Log(fs, r, p, q, r[q].phase.id)), Now(r[q]),
            r[q + 1].phase.image;
            && image.free == (m.free - h.alloc) + h.gone && h.tmp <= image.free
            && forall sets :: M.Merged(m.free, h, sets) ==> sets.next == image.free
  {
    hide Run, Inv;
    var i := r[q].phase.id;
    RequestsAddUp(fs, r, p, q, i);
    RunInv(fs, r, q);
    TmpFree(fs, r[q], i);
  }

  lemma TmpFree(fs: Fs, s: State, i: nat)
    requires Inv(fs, s) && i in s.active
    ensures s.active[i].tmp <= Now(s).free - s.active[i].alloc
  {
    assert Owns(fs, Now(s), s.active[i]);
  }
}
