// Transactions, the cache, commits and crashes of one file system, as a step relation over whole runs.
module Engine {
  import opened SuperBlocks

  type Content = nat

  // A committed file system: its free blocks, the blocks of the free set's own tree, and what
  // every block in use holds.
  datatype Image = Image(free: set<nat>, nodes: set<nat>, data: map<nat, Content>)

  // The block sets of an active transaction.
  datatype Tr = Tr(alloc: set<nat>, tmp: set<nat>, freed: set<nat>)

  // A block that a transaction has changed in the cache but not on disk.
  datatype Dirty = Dirty(id: nat, data: Content)

  // Where transaction_complete is, if some transaction is in it: merging the free sets, with the
  // nodes of the committed free set's tree that it has freed so far, or writing the super block.
  datatype Phase =
    | Idle
    | Merging(id: nat, gone: set<nat>)
    | Writing(id: nat, image: Image, super: Bytes)

  datatype Fs = Fs(dev: Device, geometry: Bytes, blocks: set<nat>)

  datatype State = State(
    disk: map<nat, Content>,
    cache: map<nat, Dirty>,
    slots: seq<Bytes>,
    done: seq<Image>,       // completed commits; done[0] is the empty file system
    supers: seq<Bytes>,     // the super block written for each of them
    active: map<nat, Tr>,
    phase: Phase)

  function Last(s: State): (n: nat)
    requires s.done != []
  {
    |s.done| - 1
  }

  function Now(s: State): Image
    requires s.done != []
  {
    s.done[|s.done| - 1]
  }

  function Held(t: Tr): set<nat> { t.alloc + t.tmp }

  // What a reader of block b sees.
  function View(s: State, b: nat): Content
    requires b in s.disk
  {
    if b in s.cache then s.cache[b].data else s.disk[b]
  }

  // ---- steps ----

  // Only one transaction can be in transaction_complete, and then no other one runs.
  predicate Runs(s: State, i: nat)
  {
    i in s.active && (s.phase.Idle? || (s.phase.Merging? && s.phase.id == i))
  }

  // transaction_activate
  ghost predicate Activate(s: State, s': State, i: nat)
  {
    s.phase.Idle? && i !in s.active && s' == s.(active := s.active[i := Tr({}, {}, {})])
  }

  // block_allocate_etc, with what find_free_block promises
  ghost predicate Allocate(s: State, s': State, i: nat, b: nat, tmp: bool)
  {
    && Runs(s, i) && s.done != [] && b in Now(s).free
    && (forall j :: j in s.active ==> b !in Held(s.active[j]))
    && var t := s.active[i];
       s' == s.(active := s.active[i := if tmp then t.(tmp := t.tmp + {b}) else t.(alloc := t.alloc + {b})])
  }

  // block_free_etc: a block of the transaction itself, whose cached changes are discarded, or a
  // committed block in use
  ghost predicate Free(fs: Fs, s: State, s': State, i: nat, b: nat)
  {
    && Runs(s, i) && s.done != []
    && var t := s.active[i];
       var u := s.(cache := s.cache - {b});
       if b in t.tmp then s' == u.(active := s.active[i := t.(tmp := t.tmp - {b})])
       else if b in t.alloc then s' == u.(active := s.active[i := t.(alloc := t.alloc - {b})])
       else
         && b in fs.blocks - Now(s).free - Now(s).nodes - t.freed
         && s' == s.(active := s.active[i := t.(freed := t.freed + {b})])
  }

  // A block is changed in the cache: block_tree_block_dirty only lets a transaction write its own.
  ghost predicate WriteBlock(s: State, s': State, i: nat, b: nat, c: Content)
  {
    Runs(s, i) && b in Held(s.active[i]) && s' == s.(cache := s.cache[b := Dirty(i, c)])
  }

  // A dirty block reaches the disk, because its cache entry is needed or its transaction commits.
  ghost predicate WriteBack(s: State, s': State, b: nat)
  {
    b in s.cache && s' == s.(disk := s.disk[b := s.cache[b].data], cache := s.cache - {b})
  }

  // transaction_fail: what the transaction has in the cache is discarded.
  ghost predicate Fail(s: State, s': State, i: nat)
  {
    Runs(s, i) && s' == s.(cache := Without(s.cache, i), active := s.active - {i}, phase := Idle)
  }

  function Without(cache: map<nat, Dirty>, i: nat): map<nat, Dirty>
  {
    map b | b in cache && cache[b].id != i :: cache[b]
  }

  // transaction_complete begins.
  ghost predicate BeginCommit(s: State, s': State, i: nat)
  {
    s.phase.Idle? && i in s.active && s' == s.(phase := Merging(i, {}))
  }

  // The merge frees a node of the committed free set's tree. Behind the cursor it goes straight to
  // the new free set and does not show up in the transaction's freed set.
  ghost predicate FreeNode(s: State, s': State, b: nat, behind: bool)
  {
    && s.phase.Merging? && s.phase.id in s.active && s.done != [] && b in Now(s).nodes - s.phase.gone
    && var i, t := s.phase.id, s.active[s.phase.id];
       s' == s.(phase := Merging(i, s.phase.gone + {b}), active := if behind then s.active
         else s.active[i := t.(freed := t.freed + {b})])
  }

  // block_cache_clean_transaction has left only temporary blocks of the transaction dirty, and the
  // super block for the new roots is going to be written.
  ghost predicate StartCommit(fs: Fs, s: State, s': State, nodes: set<nat>, iv: Bytes, free: Bytes, files: Bytes)
  {
    && s.phase.Merging? && s.phase.id in s.active && s.done != [] && fs.blocks <= s.disk.Keys
    && |iv| == 16 && |fs.geometry| == 20 && |free| == 24 && |files| == 24
    && var i, t := s.phase.id, s.active[s.phase.id];
       && (forall b :: b in s.cache && s.cache[b].id == i ==> b in t.tmp)
       && nodes <= t.alloc + (Now(s).nodes - s.phase.gone)
       && s' == s.(phase := Writing(i, NewImage(fs, s, i, t, nodes),
          Build(iv, (Last(s) + 1) % 4, fs.geometry, free, files)))
  }

  // The file system as the committing transaction sees it.
  function NewImage(fs: Fs, s: State, i: nat, t: Tr, nodes: set<nat>): Image
    requires s.done != [] && s.phase.Merging? && fs.blocks <= s.disk.Keys
  {
    var rest := (Now(s).free - t.alloc) + t.freed + s.phase.gone;
    Image(rest, nodes, map b | b in fs.blocks - rest :: View(s, b))
  }

  // The transactions that outlive the commit: those that free nothing that it frees and have not
  // used a file that it changed. If the comparison itself hits a read error, none does.
  function Survivors(s: State, users: set<nat>, error: bool): map<nat, Tr>
    requires s.phase.Writing? && s.phase.id in s.active
  {
    map j | j in s.active && j != s.phase.id && j !in users && !error
            && s.active[j].freed !! s.active[s.phase.id].freed :: s.active[j]
  }

  // What the given transactions have in the cache.
  function Only(cache: map<nat, Dirty>, left: map<nat, Tr>): map<nat, Dirty>
  {
    map b | b in cache && cache[b].id in left :: cache[b]
  }

  // The rest of transaction_complete.
  ghost predicate FinishCommit(s: State, s': State, users: set<nat>, error: bool)
  {
    && s.phase.Writing? && s.done != [] && |s.slots| == 2 && s.phase.id in s.active
    && var left := Survivors(s, users, error);
       s' == State(s.disk, Only(s.cache, left), s.slots[(Last(s) + 1) % 2 := s.phase.super],
                   s.done + [s.phase.image], s.supers + [s.phase.super], left, Idle)
  }

  // What the slots hold if power is lost after k bytes of a super block write.
  function SlotsAt(s: State, k: nat): seq<Bytes>
    requires s.done != [] && |s.slots| == 2 && |s.slots[0]| == |s.slots[1]| == SIZE && k <= SIZE
    requires s.phase.Writing? ==> |s.phase.super| == SIZE
  {
    if !s.phase.Writing? then s.slots
    else var i := (Last(s) + 1) % 2; s.slots[i := Torn(s.slots[i], s.phase.super, k)]
  }

  // Blocks that neither the last commit nor the one being written uses.
  function Unused(s: State): set<nat>
    requires s.done != []
  {
    if s.phase.Writing? then Now(s).free * s.phase.image.free else Now(s).free
  }

  // Power loss and the next mount. Unused blocks may be left with any contents.
  ghost predicate Crash(s: State, s': State, k: nat, disk: map<nat, Content>)
  {
    && s.done != [] && |s.slots| == 2 && |s.slots[0]| == |s.slots[1]| == SIZE && k <= SIZE
    && (s.phase.Writing? ==> |s.phase.super| == SIZE)
    && disk.Keys == s.disk.Keys && (forall b :: b in disk && b !in Unused(s) ==> disk[b] == s.disk[b])
    && var slots := SlotsAt(s, k);
       if s.phase.Writing? && slots[(Last(s) + 1) % 2] == s.phase.super
       then s' == State(disk, map[], slots, s.done + [s.phase.image], s.supers + [s.phase.super], map[], Idle)
       else s' == State(disk, map[], slots, s.done, s.supers, map[], Idle)
  }

  ghost predicate Next(fs: Fs, s: State, s': State)
  {
    || (exists i :: Activate(s, s', i))
    || (exists i, b, tmp :: Allocate(s, s', i, b, tmp))
    || (exists i, b :: Free(fs, s, s', i, b))
    || (exists i, b, c :: WriteBlock(s, s', i, b, c))
    || (exists b :: WriteBack(s, s', b))
    || (exists i :: Fail(s, s', i))
    || (exists i :: BeginCommit(s, s', i))
    || (exists b, behind :: FreeNode(s, s', b, behind))
    || (exists nodes, iv, free, files :: StartCommit(fs, s, s', nodes, iv, free, files))
    || (exists users, error :: FinishCommit(s, s', users, error))
    || (exists k, disk :: Crash(s, s', k, disk))
  }

  ghost predicate Init(fs: Fs, s: State)
  {
    && s.slots == [Zeros(SIZE), Zeros(SIZE)] && s.active == map[] && s.cache == map[] && s.phase == Idle
    && s.disk.Keys == fs.blocks
    && s.done == [Image(fs.blocks, {}, map[])] && s.supers == [[]]
  }

  // ---- what every reachable state satisfies ----

  // The disk has what the image says.
  ghost predicate OnDisk(disk: map<nat, Content>, m: Image)
  {
    forall b :: b in m.data ==> b in disk && disk[b] == m.data[b]
  }

  ghost predicate ImageOk(fs: Fs, m: Image)
  {
    m.free <= fs.blocks && m.nodes <= fs.blocks - m.free && m.data.Keys == fs.blocks - m.free
  }

  // Transaction t holds free blocks and is going to free blocks in use.
  ghost predicate Owns(fs: Fs, m: Image, t: Tr)
  {
    Held(t) <= m.free && t.alloc !! t.tmp && t.freed <= fs.blocks - m.free
  }

  ghost predicate AllOwn(fs: Fs, m: Image, active: map<nat, Tr>)
  {
    forall i :: i in active ==> Owns(fs, m, active[i])
  }

  // No block is held by two transactions.
  ghost predicate Apart(active: map<nat, Tr>)
  {
    forall i, j :: i in active && j in active && i != j ==> Held(active[i]) !! Held(active[j])
  }

  // Only the transaction that merges frees nodes of the committed free set's tree.
  ghost predicate NodesKept(m: Image, active: map<nat, Tr>, phase: Phase)
  {
    forall i :: i in active && (phase.Idle? || phase.id != i) ==> active[i].freed !! m.nodes
  }

  // Dirty blocks belong to the transaction that holds them.
  ghost predicate CacheOk(cache: map<nat, Dirty>, active: map<nat, Tr>)
  {
    forall b :: b in cache ==> cache[b].id in active && b in Held(active[cache[b].id])
  }

  // A super block as written for commit number n.
  ghost predicate IsSuper(fs: Fs, n: nat, b: Bytes)
  {
    exists iv, free, files ::
      |iv| == 16 && |free| == 24 && |files| == 24 && |fs.geometry| == 20
        && b == Build(iv, n % 4, fs.geometry, free, files)
  }

  ghost predicate MergingOk(m: Image, active: map<nat, Tr>, id: nat, gone: set<nat>)
  {
    id in active && gone <= m.nodes && active[id].freed * m.nodes <= gone
  }

  // The image being committed, next to the last one: its blocks are on disk, what transactions still
  // have in the cache is not part of it, and transactions that free nothing the commit frees fit it.
  ghost predicate WritingOk(fs: Fs, s: State, id: nat, image: Image, super: Bytes)
    requires s.done != []
  {
    && id in s.active && ImageOk(fs, image) && OnDisk(s.disk, image) && s.cache.Keys <= image.free
    && IsSuper(fs, Last(s) + 1, super) && s.active[id].freed <= image.free
    && (forall j :: j in s.active && j != id && s.active[j].freed !! s.active[id].freed ==>
                      Owns(fs, image, s.active[j]) && s.active[j].freed !! image.nodes)
  }

  // The super block slots fit the commits.
  ghost predicate LogOk(fs: Fs, slots: seq<Bytes>, done: seq<Image>, supers: seq<Bytes>)
  {
    && GeometryOk(fs.dev, fs.geometry) && done != [] && |supers| == |done| && SlotsOk(fs.dev, slots, |done| - 1)
    && (|done| > 1 ==> slots[(|done| - 1) % 2] == supers[|done| - 1])
  }

  ghost predicate Inv(fs: Fs, s: State)
  {
    && LogOk(fs, s.slots, s.done, s.supers) && s.done != [] && s.disk.Keys == fs.blocks
    && ImageOk(fs, Now(s)) && OnDisk(s.disk, Now(s))
    && Apart(s.active) && AllOwn(fs, Now(s), s.active) && CacheOk(s.cache, s.active)
    && NodesKept(Now(s), s.active, s.phase)
    && (s.phase.Merging? ==> MergingOk(Now(s), s.active, s.phase.id, s.phase.gone))
    && (s.phase.Writing? ==> WritingOk(fs, s, s.phase.id, s.phase.image, s.phase.super))
  }

  lemma {:induction false} InitInv(fs: Fs, s: State)
    requires Init(fs, s) && GeometryOk(fs.dev, fs.geometry)
    ensures Inv(fs, s)
  {
    ZerosInvalid(fs.dev);
  }

  lemma {:induction false} ActivateInv(fs: Fs, s: State, s': State, i: nat)
    requires Inv(fs, s) && Activate(s, s', i)
    ensures Inv(fs, s')
  {
    hide LogOk, OnDisk;
  }

  lemma {:induction false} AllocateInv(fs: Fs, s: State, s': State, i: nat, b: nat, tmp: bool)
    requires Inv(fs, s) && Allocate(s, s', i, b, tmp)
    ensures Inv(fs, s')
  {
    hide LogOk, OnDisk;
  }

  lemma {:induction false} FreeInv(fs: Fs, s: State, s': State, i: nat, b: nat)
    requires Inv(fs, s) && Free(fs, s, s', i, b)
    ensures Inv(fs, s')
  {
    hide Inv;
    if b in Held(s.active[i]) {
      FreeOwnInv(fs, s, s', i, b);
    } else {
      FreeUsedInv(fs, s, s', i, b);
    }
  }

  // A transaction gives blocks back.
  lemma {:induction false} Shrunk(fs: Fs, m: Image, active: map<nat, Tr>, i: nat, t: Tr, phase: Phase)
    requires Apart(active) && AllOwn(fs, m, active) && NodesKept(m, active, phase) && i in active
    requires t.alloc <= active[i].alloc && t.tmp <= active[i].tmp && t.freed == active[i].freed
    ensures Apart(active[i := t]) && AllOwn(fs, m, active[i := t]) && NodesKept(m, active[i := t], phase)
  {
    assert Owns(fs, m, active[i]);
  }

  lemma {:induction false} FreeOwnInv(fs: Fs, s: State, s': State, i: nat, b: nat)
    requires Inv(fs, s) && Free(fs, s, s', i, b) && b in Held(s.active[i])
    ensures Inv(fs, s')
  {
    hide LogOk, OnDisk, ImageOk, AllOwn, NodesKept, Apart, IsSuper;
    var t, t' := s.active[i], s'.active[i];
    Shrunk(fs, Now(s), s.active, i, t', s.phase);
    assert s'.active == s.active[i := t'];
    DirtyElsewhere(fs, s.cache, s.active, i, t', b);
  }

  lemma {:induction false} DirtyElsewhere(fs: Fs, cache: map<nat, Dirty>, active: map<nat, Tr>, i: nat, t: Tr, b: nat)
    requires CacheOk(cache, active) && i in active && Held(active[i]) - {b} <= Held(t)
    ensures CacheOk(cache - {b}, active[i := t])
  {
  }

  lemma {:induction false} FreeUsedInv(fs: Fs, s: State, s': State, i: nat, b: nat)
    requires Inv(fs, s) && Free(fs, s, s', i, b) && b !in Held(s.active[i])
    ensures Inv(fs, s')
  {
    hide LogOk, OnDisk, ImageOk;
    var t, t' := s.active[i], s'.active[i];
    assert Owns(fs, Now(s), t);
    assert s'.active == s.active[i := t'] && t' == t.(freed := t.freed + {b});
  }

  lemma {:induction false} WriteInv(fs: Fs, s: State, s': State, i: nat, b: nat, c: Content)
    requires Inv(fs, s) && WriteBlock(s, s', i, b, c)
    ensures Inv(fs, s')
  {
    hide LogOk, OnDisk;
  }

  // Dirty blocks are free in the last commit.
  lemma DirtyFree(fs: Fs, m: Image, active: map<nat, Tr>, cache: map<nat, Dirty>)
    requires CacheOk(cache, active) && AllOwn(fs, m, active)
    ensures cache.Keys <= m.free
  {
    forall b | b in cache
      ensures b in m.free
    {
      assert Owns(fs, m, active[cache[b].id]);
    }
  }

  lemma {:induction false} WriteBackInv(fs: Fs, s: State, s': State, b: nat)
    requires Inv(fs, s) && WriteBack(s, s', b)
    ensures Inv(fs, s')
  {
    hide LogOk, AllOwn, Apart, NodesKept, MergingOk, IsSuper;
    DirtyFree(fs, Now(s), s.active, s.cache);
  }

  lemma {:induction false} FailInv(fs: Fs, s: State, s': State, i: nat)
    requires Inv(fs, s) && Fail(s, s', i)
    ensures Inv(fs, s')
  {
    hide LogOk, OnDisk;
  }

  lemma {:induction false} BeginInv(fs: Fs, s: State, s': State, i: nat)
    requires Inv(fs, s) && BeginCommit(s, s', i)
    ensures Inv(fs, s')
  {
    hide LogOk, OnDisk;
  }

  lemma {:induction false} FreeNodeInv(fs: Fs, s: State, s': State, b: nat, behind: bool)
    requires Inv(fs, s) && FreeNode(s, s', b, behind)
    ensures Inv(fs, s')
  {
    hide LogOk, OnDisk;
  }

  lemma SuperBuilt(fs: Fs, n: nat, iv: Bytes, free: Bytes, files: Bytes)
    requires |iv| == 16 && |free| == 24 && |files| == 24 && |fs.geometry| == 20
    ensures IsSuper(fs, n, Build(iv, n % 4, fs.geometry, free, files))
  {
  }

  // What is dirty when the super block is written is free in the new image.
  lemma {:induction false} DirtyUnused(fs: Fs, s: State, i: nat, t: Tr, image: Image)
    requires Inv(fs, s) && i in s.active && t == s.active[i] && Now(s).free - t.alloc <= image.free
    requires forall b :: b in s.cache && s.cache[b].id == i ==> b in t.tmp
    ensures s.cache.Keys <= image.free
  {
    hide LogOk, OnDisk, ImageOk, NodesKept, MergingOk, WritingOk;
    forall b | b in s.cache
      ensures b in image.free
    {
      var j := s.cache[b].id;
      assert Owns(fs, Now(s), s.active[j]) && Owns(fs, Now(s), t);
      assert j != i ==> Held(s.active[j]) !! Held(t);
    }
  }

  lemma {:induction false} StartInv(fs: Fs, s: State, s': State, nodes: set<nat>, iv: Bytes, free: Bytes, files: Bytes)
    requires Inv(fs, s) && StartCommit(fs, s, s', nodes, iv, free, files)
    ensures Inv(fs, s')
  {
    hide LogOk, Build, IsSuper;
    var i, t, image := s.phase.id, s.active[s.phase.id], s'.phase.image;
    SuperBuilt(fs, Last(s) + 1, iv, free, files);
    DirtyUnused(fs, s, i, t, image);
    forall b | b in image.data
      ensures b in s.disk && s.disk[b] == image.data[b]
    {
      assert b !in s.cache;
    }
    StartSurvivors(fs, Now(s), s.active, i, s.phase.gone, image);
  }

  lemma {:induction false} StartSurvivors(fs: Fs, m: Image, active: map<nat, Tr>, i: nat, gone: set<nat>, image: Image)
    requires Apart(active) && AllOwn(fs, m, active) && ImageOk(fs, m) && MergingOk(m, active, i, gone)
             && NodesKept(m, active, Merging(i, gone))
    requires image.free == (m.free - active[i].alloc) + active[i].freed + gone
             && image.nodes <= active[i].alloc + (m.nodes - gone)
    ensures forall j :: j in active && j != i && active[j].freed !! active[i].freed ==>
                          Owns(fs, image, active[j]) && active[j].freed !! image.nodes
  {
    forall j | j in active && j != i && active[j].freed !! active[i].freed
      ensures Owns(fs, image, active[j]) && active[j].freed !! image.nodes
    {
      assert Owns(fs, m, active[j]) && Owns(fs, m, active[i]) && active[j].freed !! m.nodes;
      assert Held(active[i]) !! Held(active[j]);
    }
  }

  lemma {:induction false} FinishInv(fs: Fs, s: State, s': State, users: set<nat>, error: bool)
    requires Inv(fs, s) && FinishCommit(s, s', users, error)
    ensures Inv(fs, s')
  {
    hide IsSuper, GeometryOk, SlotsOk, ImageOk, OnDisk;
    WriteSlots(fs, s.slots, Last(s), s.phase.super);
    assert Last(s') == Last(s) + 1;
  }

  lemma WriteSlots(fs: Fs, slots: seq<Bytes>, n: nat, b: Bytes)
    requires SlotsOk(fs.dev, slots, n) && GeometryOk(fs.dev, fs.geometry) && IsSuper(fs, n + 1, b)
    ensures |slots| == 2 && SlotsOk(fs.dev, slots[(n + 1) % 2 := b], n + 1)
  {
    hide IsSuper, GeometryOk, Holds, SlotsOk;
    SlotsTwo(fs.dev, slots, n);
    SuperHolds(fs, n + 1, b);
    NextSlots(fs.dev, slots, n, b);
  }

  lemma SlotsTwo(dev: Device, slots: seq<Bytes>, n: nat)
    requires SlotsOk(dev, slots, n)
    ensures |slots| == 2
  {
  }

  lemma SuperHolds(fs: Fs, n: nat, b: Bytes)
    requires GeometryOk(fs.dev, fs.geometry) && IsSuper(fs, n, b)
    ensures Holds(fs.dev, b, n) && fs.dev.blockSize > 0
  {
    hide Build, Holds, GeometryOk, IsSuper;
    var iv, free, files := SuperParts(fs, n, b);
    GeometryPositive(fs.dev, fs.geometry);
    BuildHolds(fs.dev, iv, n, fs.geometry, free, files);
  }

  lemma SuperParts(fs: Fs, n: nat, b: Bytes) returns (iv: Bytes, free: Bytes, files: Bytes)
    requires IsSuper(fs, n, b)
    ensures |iv| == 16 && |free| == 24 && |files| == 24 && |fs.geometry| == 20
            && b == Build(iv, n % 4, fs.geometry, free, files)
  {
    hide Build;
    iv, free, files :| |iv| == 16 && |free| == 24 && |files| == 24 && |fs.geometry| == 20
      && b == Build(iv, n % 4, fs.geometry, free, files);
  }

  lemma GeometryPositive(dev: Device, g: Bytes)
    requires GeometryOk(dev, g)
    ensures dev.blockSize > 0
  {
  }

  // ---- crashes ----

  lemma {:induction false} TornSuper(fs: Fs, slots: seq<Bytes>, n: nat, b: Bytes, k: nat)
    requires SlotsOk(fs.dev, slots, n) && GeometryOk(fs.dev, fs.geometry) && IsSuper(fs, n + 1, b) && k <= SIZE
    ensures |slots| == 2 && |slots[0]| == |slots[1]| == |b| == SIZE
    ensures var i := (n + 1) % 2; var after := slots[i := Torn(slots[i], b, k)];
            after[i] == b || SlotsOk(fs.dev, after, n)
  {
    hide SlotsOk, GeometryOk, Build, IsSuper, Torn;
    var iv, free, files := SuperParts(fs, n + 1, b);
    SlotsSizes(fs.dev, slots, n);
    TornSlots(fs.dev, slots, n, iv, fs.geometry, free, files, k);
  }

  lemma SlotsSizes(dev: Device, slots: seq<Bytes>, n: nat)
    requires SlotsOk(dev, slots, n)
    ensures |slots| == 2 && |slots[0]| == |slots[1]| == SIZE
  {
    assert (n + 1) % 2 != n % 2;
  }

  lemma {:induction false} CrashSlots(fs: Fs, s: State, s': State, k: nat, disk: map<nat, Content>)
    requires Inv(fs, s) && Crash(s, s', k, disk)
    ensures LogOk(fs, s'.slots, s'.done, s'.supers)
  {
    hide SlotsOk, GeometryOk, IsSuper, ImageOk, OnDisk, Apart, AllOwn, CacheOk, NodesKept, Owns, Torn;
    var n := Last(s);
    if s.phase.Writing? {
      var super, i := s.phase.super, (n + 1) % 2;
      TornSuper(fs, s.slots, n, super, k);
      WriteSlots(fs, s.slots, n, super);
      assert i != n % 2;
      assert s.slots[i := Torn(s.slots[i], super, k)][i := super] == s.slots[i := super];
    }
  }

  lemma {:induction false} CrashInv(fs: Fs, s: State, s': State, k: nat, disk: map<nat, Content>)
    requires Inv(fs, s) && Crash(s, s', k, disk)
    ensures Inv(fs, s')
  {
    CrashSlots(fs, s, s', k, disk);
    CrashDisk(fs, s, s', k, disk);
    hide LogOk, IsSuper, ImageOk, OnDisk, Torn;
  }

  lemma {:induction false} CrashDisk(fs: Fs, s: State, s': State, k: nat, disk: map<nat, Content>)
    requires Inv(fs, s) && Crash(s, s', k, disk) && s'.done != []
    ensures ImageOk(fs, Now(s')) && OnDisk(s'.disk, Now(s')) && s'.disk.Keys == fs.blocks
  {
    hide LogOk, IsSuper, Apart, AllOwn, CacheOk, NodesKept, Owns, Torn;
  }

  lemma {:induction false} NextInv(fs: Fs, s: State, s': State)
    requires Inv(fs, s) && Next(fs, s, s')
    ensures Inv(fs, s')
  {
    hide Inv, Activate, Allocate, Free, WriteBlock, WriteBack, Fail, BeginCommit, FreeNode, StartCommit, FinishCommit,
      Crash;
    if i :| Activate(s, s', i) {
      ActivateInv(fs, s, s', i);
    } else if i, b, tmp :| Allocate(s, s', i, b, tmp) {
      AllocateInv(fs, s, s', i, b, tmp);
    } else if i, b :| Free(fs, s, s', i, b) {
      FreeInv(fs, s, s', i, b);
    } else if i, b, c :| WriteBlock(s, s', i, b, c) {
      WriteInv(fs, s, s', i, b, c);
    } else if b :| WriteBack(s, s', b) {
      WriteBackInv(fs, s, s', b);
    } else if i :| Fail(s, s', i) {
      FailInv(fs, s, s', i);
    } else if i :| BeginCommit(s, s', i) {
      BeginInv(fs, s, s', i);
    } else if b, behind :| FreeNode(s, s', b, behind) {
      FreeNodeInv(fs, s, s', b, behind);
    } else if nodes, iv, free, files :| StartCommit(fs, s, s', nodes, iv, free, files) {
      StartInv(fs, s, s', nodes, iv, free, files);
    } else if users, error :| FinishCommit(s, s', users, error) {
      FinishInv(fs, s, s', users, error);
    } else {
      var k, disk :| Crash(s, s', k, disk);
      CrashInv(fs, s, s', k, disk);
    }
  }

  // ---- whole runs ----

  ghost predicate Run(fs: Fs, r: seq<State>)
  {
    r != [] && Init(fs, r[0]) && forall i :: 0 <= i < |r| - 1 ==> Next(fs, r[i], r[i + 1])
  }

  lemma {:induction false} RunInv(fs: Fs, r: seq<State>, i: nat)
    requires Run(fs, r) && i < |r| && GeometryOk(fs.dev, fs.geometry)
    ensures Inv(fs, r[i])
    decreases i
  {
    hide Inv, Next, Init;
    if i == 0 {
      InitInv(fs, r[0]);
    } else {
      RunInv(fs, r, i - 1);
      assert Next(fs, r[i - 1], r[i - 1 + 1]);
      NextInv(fs, r[i - 1], r[i]);
    }
  }

  ghost predicate Sized(s: State)
  {
    && s.done != [] && |s.supers| == |s.done| && |s.slots| == 2 && |s.slots[0]| == |s.slots[1]| == SIZE
    && (s.phase.Writing? ==> |s.phase.super| == SIZE)
  }

  // If power is lost after k bytes of a super block write, the next mount starts from the last
  // completed commit or from the one being written, and every block it uses is on disk as committed,
  // whatever unused blocks hold.
  ghost predicate Recovers(fs: Fs, s: State, k: nat)
  {
    && Sized(s) && k <= SIZE && |SlotsAt(s, k)| == 2 && |SlotsAt(s, k)[0]| == |SlotsAt(s, k)[1]| == SIZE
    && var chosen := Chosen(fs.dev, SlotsAt(s, k));
       || (chosen == (if Last(s) == 0 then None else Some(s.supers[Last(s)])) && OnDisk(s.disk, Now(s))
         && Now(s).data.Keys !! Unused(s))
       || (s.phase.Writing? && chosen == Some(s.phase.super) && OnDisk(s.disk, s.phase.image)
         && s.phase.image.data.Keys !! Unused(s))
  }

  // At any point of any run.
  lemma {:induction false} CrashSafe(fs: Fs, r: seq<State>, i: nat, k: nat)
    requires Run(fs, r) && i < |r| && GeometryOk(fs.dev, fs.geometry) && k <= SIZE
    ensures Recovers(fs, r[i], k)
  {
    hide Run, Inv, Recovers, GeometryOk;
    RunInv(fs, r, i);
    InvRecovers(fs, r[i], k);
  }

  lemma {:induction false} InvSized(fs: Fs, s: State)
    requires Inv(fs, s)
    ensures Sized(s)
  {
    hide SlotsOk, IsSuper, ImageOk, OnDisk, Apart, AllOwn, CacheOk, NodesKept, Owns, Torn;
    SlotsSizes(fs.dev, s.slots, Last(s));
    if s.phase.Writing? {
      TornSuper(fs, s.slots, Last(s), s.phase.super, 0);
    }
  }

  lemma {:induction false} InvRecovers(fs: Fs, s: State, k: nat)
    requires Inv(fs, s) && k <= SIZE
    ensures Recovers(fs, s, k)
  {
    hide Inv, OnDisk, Chosen, Crash, Torn, SlotsAt, Unused;
    InvSized(fs, s);
    InvUnused(fs, s);
    var s' := CrashState(s, k);
    CrashInv(fs, s, s', k, s.disk);
    InvLoads(fs, s');
  }

  lemma {:induction false} InvUnused(fs: Fs, s: State)
    requires Inv(fs, s)
    ensures s.done != [] && Now(s).data.Keys !! Unused(s) && (s.phase.Writing? ==> s.phase.image.data.Keys !! Unused(s))
  {
    hide SlotsOk, GeometryOk, IsSuper, OnDisk, Apart, AllOwn, CacheOk, NodesKept;
  }

  // A mount without interference starts from the last commit.
  lemma {:induction false} InvLoads(fs: Fs, s: State)
    requires Inv(fs, s)
    ensures s.done != [] && |s.supers| == |s.done| && |s.slots| == 2 && |s.slots[0]| == |s.slots[1]| == SIZE
    ensures Chosen(fs.dev, s.slots) == (if Last(s) == 0 then None else Some(s.supers[Last(s)]))
            && OnDisk(s.disk, Now(s))
  {
    hide SlotsOk, GeometryOk, ImageOk, OnDisk, Apart, AllOwn, CacheOk, NodesKept, MergingOk, WritingOk, Chosen;
    GeometryPositive(fs.dev, fs.geometry);
    LoadLast(fs.dev, s.slots, Last(s));
    SlotsSizes(fs.dev, s.slots, Last(s));
  }

  // The state after such a power loss.
  lemma CrashState(s: State, k: nat) returns (s': State)
    requires Sized(s) && k <= SIZE
    ensures Crash(s, s', k, s.disk) && s'.slots == SlotsAt(s, k) && s'.disk == s.disk && s'.done != []
    ensures (s'.done == s.done && s'.supers == s.supers)
            || (s.phase.Writing? && s'.done == s.done + [s.phase.image] && s'.supers == s.supers + [s.phase.super])
  {
    var slots := SlotsAt(s, k);
    s' := if s.phase.Writing? && slots[(Last(s) + 1) % 2] == s.phase.super
          then State(s.disk, map[], slots, s.done + [s.phase.image], s.supers + [s.phase.super], map[], Idle)
          else State(s.disk, map[], slots, s.done, s.supers, map[], Idle);
  }

  // A completed commit is never lost.
  lemma {:induction false} DoneGrows(fs: Fs, r: seq<State>, i: nat, j: nat)
    requires Run(fs, r) && i <= j < |r|
    ensures r[i].done <= r[j].done
    decreases j - i
  {
    hide Init, Next;
    if i < j {
      DoneGrows(fs, r, i, j - 1);
      assert Next(fs, r[j - 1], r[j - 1 + 1]);
      DoneStep(fs, r[j - 1], r[j]);
    }
  }

  lemma DoneStep(fs: Fs, s: State, s': State)
    requires Next(fs, s, s')
    ensures s.done <= s'.done
  {
  }

  // In every reachable state no block is held twice, what transactions hold is committed as free,
  // and what they are going to free is not.
  lemma {:induction false} Ownership(fs: Fs, r: seq<State>, n: nat, i: nat, j: nat)
    requires Run(fs, r) && n < |r| && GeometryOk(fs.dev, fs.geometry) && i in r[n].active && j in r[n].active
    ensures r[n].done != []
    ensures var a, b, m := r[n].active[i], r[n].active[j], Now(r[n]);
            (i != j ==> Held(a) !! Held(b)) && a.alloc !! a.tmp && Held(a) <= m.free && a.freed !! m.free
  {
    RunInv(fs, r, n);
    hide Run, LogOk, OnDisk;
    assert Owns(fs, Now(r[n]), r[n].active[i]);
  }

  // In every reachable state a reader of a block of the last commit sees what was committed, and the
  // disk has it, whatever transactions have written to the cache or back to the disk.
  lemma {:induction false} CommittedReads(fs: Fs, r: seq<State>, n: nat, b: nat)
    requires Run(fs, r) && n < |r| && GeometryOk(fs.dev, fs.geometry)
    ensures r[n].done != []
            && (b in Now(r[n]).data ==> b in r[n].disk && View(r[n], b) == r[n].disk[b] == Now(r[n]).data[b])
  {
    RunInv(fs, r, n);
    hide Run, LogOk;
    DirtyFree(fs, Now(r[n]), r[n].active, r[n].cache);
  }

  // Transactions that have failed meanwhile have left no trace: as long as nothing is committed, every
  // committed block reads as it did.
  lemma {:induction false} FailedUnseen(fs: Fs, r: seq<State>, p: nat, q: nat, b: nat)
    requires Run(fs, r) && p <= q < |r| && GeometryOk(fs.dev, fs.geometry) && r[p].done != []
             && |r[q].done| == |r[p].done|
    requires b in Now(r[p]).data
    ensures b in r[p].disk && b in r[q].disk && View(r[q], b) == View(r[p], b)
  {
    hide Run;
    DoneGrows(fs, r, p, q);
    CommittedReads(fs, r, p, b);
    CommittedReads(fs, r, q, b);
  }

  // Two commits that both free block b: in between a commit put it back into use.
  lemma {:induction false} FreedTwice(fs: Fs, r: seq<State>, p: nat, q: nat, b: nat) returns (l: nat)
    requires Run(fs, r) && p < q < |r| && GeometryOk(fs.dev, fs.geometry) && r[p].phase.Writing? && r[q].phase.Writing?
    requires r[p].phase.id in r[p].active && b in r[p].active[r[p].phase.id].freed
    requires r[q].phase.id in r[q].active && b in r[q].active[r[q].phase.id].freed
    requires |r[p].done| < |r[q].done| && r[q].done[|r[p].done|] == r[p].phase.image
    ensures |r[p].done| <= l < |r[q].done| - 1 && b in r[q].done[l].free && b !in r[q].done[l + 1].free
  {
    hide Run, Inv;
    RunInv(fs, r, p);
    RunInv(fs, r, q);
    FreedInUse(fs, r[p], b);
    FreedInUse(fs, r[q], b);
    l := TakenBetween(r[q].done, |r[p].done|, b);
  }

  lemma FreedInUse(fs: Fs, s: State, b: nat)
    requires Inv(fs, s) && s.phase.Writing? && s.phase.id in s.active && b in s.active[s.phase.id].freed
    ensures s.done != [] && b !in Now(s).free && b in s.phase.image.free
  {
    hide SlotsOk, GeometryOk, ImageOk, OnDisk, Apart, CacheOk, NodesKept, IsSuper;
    assert Owns(fs, Now(s), s.active[s.phase.id]);
  }

  lemma TakenBetween(images: seq<Image>, from: nat, b: nat) returns (l: nat)
    requires from < |images| && b in images[from].free && b !in images[|images| - 1].free
    ensures from <= l < |images| - 1 && b in images[l].free && b !in images[l + 1].free
  {
    l := from;
    while b in images[l + 1].free
      invariant from <= l < |images| - 1 && b in images[l].free
      decreases |images| - l
    {
      l := l + 1;
    }
  }
}
