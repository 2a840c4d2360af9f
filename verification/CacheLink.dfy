// The cache of block_cache.c as the engine sees it: the dirty blocks of one device.
module CacheLinks {
  import opened BlockCaches
  import E = Engine

  ghost predicate DirtyAt(e: Entry, dev: nat, b: nat) { e.dirty && e.dev == dev && e.block == b }

  // The dirty blocks of device dev, with the transaction that changed them.
  ghost function DirtyOf(es: seq<Entry>, disk: map<Key, Content>, dev: nat): (m: map<nat, E.Dirty>)
    requires Coherent(es, disk)
    ensures forall b :: b in m <==> exists i :: 0 <= i < |es| && DirtyAt(es[i], dev, b)
  {
    map b | b in BlocksOf(es) && exists i :: 0 <= i < |es| && DirtyAt(es[i], dev, b)
        :: var i :| 0 <= i < |es| && DirtyAt(es[i], dev, b); E.Dirty(es[i].tr, es[i].data)
  }

  function BlocksOf(es: seq<Entry>): set<nat>
  {
    set i | 0 <= i < |es| :: es[i].block
  }

  lemma {:induction false} DirtyEntry(es: seq<Entry>, disk: map<Key, Content>, dev: nat, i: nat)
    requires Coherent(es, disk) && i < |es| && es[i].dirty && es[i].dev == dev
    ensures es[i].block in DirtyOf(es, disk, dev)
            && DirtyOf(es, disk, dev)[es[i].block] == E.Dirty(es[i].tr, es[i].data)
  {
    var b := es[i].block;
    assert EntryOk(es[i], disk) && DirtyAt(es[i], dev, b);
    forall j | 0 <= j < |es| && DirtyAt(es[j], dev, b)
      ensures j == i
    {
      assert EntryOk(es[j], disk);
      assert For(es[j], KeyOf(es[i]));
    }
  }

  // A reader of the cache sees the dirty data of a block if there is any, and else the disk.
  lemma {:induction false} ViewLink(es: seq<Entry>, disk: map<Key, Content>, dev: nat, b: nat)
    requires Coherent(es, disk) && Key(dev, b) in disk
    ensures var m := DirtyOf(es, disk, dev);
            View(es, disk, Key(dev, b)) == if b in m then m[b].data else disk[Key(dev, b)]
  {
    hide View, DirtyOf;
    var k := Key(dev, b);
    if i :| 0 <= i < |es| && For(es[i], k) {
      assert EntryOk(es[i], disk);
      ViewHit(es, disk, k, i);
      if es[i].dirty {
        DirtyEntry(es, disk, dev, i);
      } else {
        OneEntry(es, disk, k, i);
        forall j | 0 <= j < |es|
          ensures !DirtyAt(es[j], dev, b)
        {
          assert EntryOk(es[j], disk);
        }
      }
    } else {
      forall j | 0 <= j < |es|
        ensures !DirtyAt(es[j], dev, b) && !Hit(es[j], k)
      {
        assert EntryOk(es[j], disk) && !For(es[j], k);
      }
      ViewMiss(es, disk, k);
    }
  }

  // block_cache_discard_transaction is the engine's discard.
  lemma {:induction false} DiscardLink(es: seq<Entry>, es': seq<Entry>, disk: map<Key, Content>, dev: nat, t: nat)
    requires Coherent(es, disk) && Coherent(es', disk) && |es'| == |es| && t != 0
    requires forall j :: 0 <= j < |es| ==> es'[j] == Discarded(es[j], t)
    ensures DirtyOf(es', disk, dev) == E.Without(DirtyOf(es, disk, dev), t)
  {
    hide DirtyOf, Coherent;
    var m, n := DirtyOf(es', disk, dev), E.Without(DirtyOf(es, disk, dev), t);
    forall b: nat
      ensures b in m <==> b in n
      ensures b in m && b in n ==> m[b] == n[b]
    {
      if b in m {
        var i :| 0 <= i < |es'| && DirtyAt(es'[i], dev, b);
        assert es'[i] == Discarded(es[i], t);
        DirtyEntry(es', disk, dev, i);
        DirtyEntry(es, disk, dev, i);
      } else if b in DirtyOf(es, disk, dev) {
        var i :| 0 <= i < |es| && DirtyAt(es[i], dev, b);
        DirtyEntry(es, disk, dev, i);
        assert !DirtyAt(es'[i], dev, b);
      }
    }
  }

  // After block_cache_clean_transaction only temporary blocks of the transaction are dirty.
  lemma {:induction false} CleanLink(es: seq<Entry>, es': seq<Entry>, disk: map<Key, Content>, dev: nat, t: nat, b: nat)
    requires Coherent(es', disk) && |es'| == |es| && t != 0
             && (forall j :: 0 <= j < |es| ==> es'[j] == Written(es[j], t))
    requires b in DirtyOf(es', disk, dev) && DirtyOf(es', disk, dev)[b].id == t
    ensures exists i :: 0 <= i < |es| && DirtyAt(es[i], dev, b) && es[i].dirtyTmp
  {
    hide DirtyOf;
    var i :| 0 <= i < |es'| && DirtyAt(es'[i], dev, b);
    DirtyEntry(es', disk, dev, i);
    assert es'[i] == Written(es[i], t);
  }

  // ---- operations of the cache as steps of the engine ----

  // The blocks of device dev on disk.
  ghost function DiskOf(disk: map<Key, Content>, dev: nat): (m: map<nat, Content>)
    ensures forall b :: b in m <==> Key(dev, b) in disk
    ensures forall b :: b in m ==> m[b] == disk[Key(dev, b)]
  {
    map k | k in disk && k.dev == dev :: k.block := disk[k]
  }

  // The engine state s has this cache and this disk.
  ghost predicate Shows(s: E.State, es: seq<Entry>, disk: map<Key, Content>, dev: nat)
    requires Coherent(es, disk)
  {
    s.cache == DirtyOf(es, disk, dev) && s.disk == DiskOf(disk, dev)
  }

  // Readers of the cache and readers of the engine see the same.
  lemma {:induction false} SameView(s: E.State, es: seq<Entry>, disk: map<Key, Content>, dev: nat, b: nat)
    requires Coherent(es, disk) && Shows(s, es, disk, dev) && b in s.disk
    ensures Key(dev, b) in disk && View(es, disk, Key(dev, b)) == E.View(s, b)
  {
    hide View, DirtyOf, DiskOf;
    ViewLink(es, disk, dev, b);
  }

  // Entry i changes; other dirty blocks stay as they are.
  lemma {:induction false} DirtySet(es: seq<Entry>, disk: map<Key, Content>, disk': map<Key, Content>, dev: nat,
                                    i: nat, e: Entry)
    requires Coherent(es, disk) && i < |es| && Coherent(es[i := e], disk') && es[i].dev == dev
             && KeyOf(e) == KeyOf(es[i])
    ensures var m := DirtyOf(es, disk, dev);
            DirtyOf(es[i := e], disk', dev) == if e.dirty then m[e.block := E.Dirty(e.tr, e.data)] else m - {e.block}
  {
    hide DirtyOf;
    var es' := es[i := e];
    var m := DirtyOf(es, disk, dev);
    var n, n' := if e.dirty then m[e.block := E.Dirty(e.tr, e.data)] else m - {e.block}, DirtyOf(es', disk', dev);
    if e.dirty {
      DirtyEntry(es', disk', dev, i);
    }
    forall b: nat
      ensures b in n' <==> b in n
      ensures b in n' && b in n ==> n'[b] == n[b]
    {
      if b == e.block {
        NotElsewhere(es, disk, disk', dev, i, e, es');
      } else if b in n' {
        var j :| 0 <= j < |es'| && DirtyAt(es'[j], dev, b);
        assert j != i && es[j] == es'[j];
        DirtyEntry(es', disk', dev, j);
        DirtyEntry(es, disk, dev, j);
      } else if b in m {
        var j :| 0 <= j < |es| && DirtyAt(es[j], dev, b);
        assert j != i ==> DirtyAt(es'[j], dev, b);
      }
    }
  }

  lemma {:induction false} NotElsewhere(es: seq<Entry>, disk: map<Key, Content>, disk': map<Key, Content>, dev: nat,
                                        i: nat, e: Entry, es': seq<Entry>)
    requires Coherent(es, disk) && i < |es| && es' == es[i := e] && Coherent(es', disk') && es[i].dev == dev
             && KeyOf(e) == KeyOf(es[i])
    ensures forall j :: 0 <= j < |es'| && DirtyAt(es'[j], dev, e.block) ==> j == i
  {
    forall j | 0 <= j < |es'| && DirtyAt(es'[j], dev, e.block)
      ensures j == i
    {
      assert EntryOk(es'[j], disk');
      assert es'[i].dev != 0 ==> For(es'[j], KeyOf(es'[i]));
    }
  }

  // block_cache_entry_clean writes a dirty block back.
  lemma {:induction false} CleanStep(s: E.State, s': E.State, es: seq<Entry>, disk: map<Key, Content>, dev: nat, i: nat)
    requires Coherent(es, disk) && Shows(s, es, disk, dev) && i < |es| && es[i].dev == dev && es[i].dirty
             && !es[i].dirtyRef
    requires var es', disk' := es[i := es[i].(dirty := false, tr := 0)], disk[KeyOf(es[i]) := es[i].data];
             Coherent(es', disk') && Shows(s', es', disk', dev) && s' == s.(cache := s'.cache, disk := s'.disk)
    ensures E.WriteBack(s, s', es[i].block)
  {
    hide DirtyOf;
    var e, disk' := es[i].(dirty := false, tr := 0), disk[KeyOf(es[i]) := es[i].data];
    DirtyEntry(es, disk, dev, i);
    DirtySet(es, disk, disk', dev, i, e);
    assert DiskOf(disk', dev) == DiskOf(disk, dev)[es[i].block := es[i].data];
  }

  // A write through a dirty pointer is a write of its transaction.
  lemma {:induction false} WriteStep(s: E.State, s': E.State, es: seq<Entry>, disk: map<Key, Content>, dev: nat,
                                     i: nat, c: Content)
    requires Coherent(es, disk) && Shows(s, es, disk, dev) && i < |es| && es[i].dev == dev && es[i].dirty
    requires E.Runs(s, es[i].tr) && es[i].block in E.Held(s.active[es[i].tr])
    requires var es' := es[i := es[i].(data := c)];
             Coherent(es', disk) && Shows(s', es', disk, dev) && s' == s.(cache := s'.cache, disk := s'.disk)
    ensures E.WriteBlock(s, s', es[i].tr, es[i].block, c)
  {
    hide DirtyOf;
    DirtySet(es, disk, disk, dev, i, es[i].(data := c));
  }

  // block_cache_discard_transaction is what failing a transaction does to the cache.
  lemma {:induction false} DiscardStep(s: E.State, s': E.State, es: seq<Entry>, es': seq<Entry>, disk: map<Key,
                                       Content>, dev: nat, t: nat)
    requires Coherent(es, disk) && Coherent(es', disk) && Shows(s, es, disk, dev) && Shows(s', es', disk, dev)
             && |es'| == |es|
    requires t != 0 && E.Runs(s, t) && forall j :: 0 <= j < |es| ==> es'[j] == Discarded(es[j], t)
    requires s' == s.(cache := s'.cache, disk := s'.disk, active := s.active - {t}, phase := E.Idle)
    ensures E.Fail(s, s', t)
  {
    hide DirtyOf;
    DiscardLink(es, es', disk, dev, t);
  }
}
