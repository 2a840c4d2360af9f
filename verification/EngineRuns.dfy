// Every transaction can get through: the run in which it writes a block and commits.
module EngineRuns {
  import opened SuperBlocks
  import opened Engine

  ghost predicate Steps(fs: Fs, r: seq<State>)
  {
    r != [] && forall k :: 0 <= k < |r| - 1 ==> Next(fs, r[k], r[k + 1])
  }

  // Transaction i has allocated block b and written c to it, and the block has been written back.
  function Filled(s: State, i: nat, b: nat, c: Content): State
  {
    s.(disk := s.disk[b := c], active := s.active[i := Tr({b}, {}, {})])
  }

  lemma {:induction false} CanFill(fs: Fs, s: State, i: nat, b: nat, c: Content) returns (r: seq<State>)
    requires Inv(fs, s) && s.phase.Idle? && i in s.active && s.active[i] == Tr({}, {}, {})
    requires b in Now(s).free && forall j :: j in s.active ==> b !in Held(s.active[j])
    ensures Steps(fs, r) && r[0] == s && r[|r| - 1] == Filled(s, i, b, c)
  {
    hide LogOk, ImageOk, OnDisk, AllOwn, Apart, NodesKept, MergingOk, WritingOk;
    assert b !in s.cache;
    var s1 := s.(active := s.active[i := Tr({b}, {}, {})]);
    var s2 := s1.(cache := s.cache[b := Dirty(i, c)]);
    var s3 := Filled(s, i, b, c);
    assert s.active[i].alloc + {b} == {b};
    assert Allocate(s, s1, i, b, false);
    assert WriteBlock(s1, s2, i, b, c);
    assert s2.cache - {b} == s.cache;
    assert WriteBack(s2, s3, b);
    r := [s, s1, s2, s3];
  }

  // The new image: b is in use with c, and everything else is as it was.
  lemma {:induction false} FilledImage(fs: Fs, s: State, i: nat, b: nat, c: Content, u: State, nodes: set<nat>)
    requires Inv(fs, s) && s.phase.Idle? && i in s.active && b in Now(s).free
    requires forall j :: j in s.active ==> b !in Held(s.active[j])
    requires u == Filled(s, i, b, c).(phase := Merging(i, {})) && fs.blocks <= u.disk.Keys
    ensures NewImage(fs, u, i, u.active[i], nodes) == Image(Now(s).free - {b}, nodes, Now(s).data[b := c])
  {
    hide LogOk, NodesKept, Apart, MergingOk, WritingOk;
    var m := NewImage(fs, u, i, u.active[i], nodes);
    assert b !in s.cache;
    assert m.free == Now(s).free - {b};
    assert fs.blocks - m.free == Now(s).data.Keys + {b};
    forall x | x in Now(s).data
      ensures x != b && x !in s.cache && View(u, x) == Now(s).data[x]
    {
    }
    assert m.data == Now(s).data[b := c];
  }

  // A transaction without requests so far can take any free block, give it any contents and commit,
  // with any super block roots and with any of its blocks as new nodes of the free set's tree: the
  // commit differs from the last one in that block only, and all other transactions go on.
  lemma {:induction false} CanCommit(fs: Fs, s: State, i: nat, b: nat, c: Content, nodes: set<nat>, iv: Bytes,
                                     free: Bytes, files: Bytes) returns (r: seq<State>)
    requires Inv(fs, s) && s.phase.Idle? && i in s.active && s.active[i] == Tr({}, {}, {})
    requires b in Now(s).free && forall j :: j in s.active ==> b !in Held(s.active[j])
    requires nodes <= {b} + Now(s).nodes && |iv| == 16 && |free| == 24 && |files| == 24
    ensures Steps(fs, r) && r[0] == s
    ensures var e := r[|r| - 1];
            && e.done == s.done + [Image(Now(s).free - {b}, nodes, Now(s).data[b := c])]
            && e.phase.Idle? && e.active == s.active - {i} && e.cache == s.cache
            && e.slots == s.slots[(Last(s) + 1) % 2 := Build(iv, (Last(s) + 1) % 4, fs.geometry, free, files)]
  {
    hide ImageOk, OnDisk, AllOwn, Apart, NodesKept, MergingOk, WritingOk, Spare, Holds, Build;
    var q := CanFill(fs, s, i, b, c);
    var s3 := Filled(s, i, b, c);
    var s4 := s3.(phase := Merging(i, {}));
    assert BeginCommit(s3, s4, i);
    assert fs.blocks <= s4.disk.Keys && |fs.geometry| == 20;
    FilledImage(fs, s, i, b, c, s4, nodes);
    var image := Image(Now(s).free - {b}, nodes, Now(s).data[b := c]);
    var s5 := s4.(phase := Writing(i, image, Build(iv, (Last(s) + 1) % 4, fs.geometry, free, files)));
    NoneDirty(fs, s, i);
    assert StartCommit(fs, s4, s5, nodes, iv, free, files);
    var s6 := Finished(fs, s, s5, i);
    assert Next(fs, s5, s6);
    r := q + [s4, s5, s6];
    forall k | 0 <= k < |r| - 1
      ensures Next(fs, r[k], r[k + 1])
    {
      assert k < |q| - 1 ==> r[k] == q[k] && r[k + 1] == q[k + 1];
    }
  }

  lemma NoneDirty(fs: Fs, s: State, i: nat)
    requires Inv(fs, s) && i in s.active && Held(s.active[i]) == {}
    ensures forall x :: x in s.cache ==> s.cache[x].id != i && s.cache[x].id in s.active
  {
    hide LogOk, ImageOk, OnDisk, AllOwn, Apart, NodesKept, MergingOk, WritingOk;
  }

  // The last step: a commit that frees nothing is in nobody's way.
  lemma {:induction false} Finished(fs: Fs, s: State, s5: State, i: nat) returns (s6: State)
    requires s5.phase.Writing? && s5.phase.id == i && s5.done == s.done != [] && s5.slots == s.slots && |s.slots| == 2
    requires s5.cache == s.cache && i in s.active && s5.active.Keys == s.active.Keys && s5.active[i].freed == {}
    requires forall j :: j in s.active && j != i ==> s5.active[j] == s.active[j]
    requires forall x :: x in s.cache ==> s.cache[x].id != i && s.cache[x].id in s.active
    ensures FinishCommit(s5, s6, {}, false)
    ensures s6.done == s.done + [s5.phase.image] && s6.phase.Idle? && s6.active == s.active - {i}
            && s6.cache == s.cache && s6.slots == s.slots[(Last(s) + 1) % 2 := s5.phase.super]
  {
    var left := Survivors(s5, {}, false);
    assert left == s.active - {i};
    assert Only(s.cache, left) == s.cache;
    s6 := State(s5.disk, Only(s5.cache, left), s5.slots[(Last(s5) + 1) % 2 := s5.phase.super],
                s5.done + [s5.phase.image], s5.supers + [s5.phase.super], left, Idle);
  }
}
