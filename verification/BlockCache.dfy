// The write-back cache of block_cache.c in front of the block devices. Data is kept as it is
// on disk: encryption is the identity here, and MAC values are not part of an entry.
module BlockCaches {

  type Content = nat

  datatype Key = Key(dev: nat, block: nat)

  // dev 0 marks an entry that is not used for any block; tr 0 is no transaction.
  datatype Entry = Entry(dev: nat, block: nat, data: Content, loaded: bool, dirty: bool, dirtyRef: bool,
    dirtyTmp: bool, tr: nat, refs: nat)

  predicate For(e: Entry, k: Key) { e.dev != 0 && e.dev == k.dev && e.block == k.block }

  // The entry has the block's data.
  predicate Hit(e: Entry, k: Key) { For(e, k) && e.loaded }

  function KeyOf(e: Entry): Key { Key(e.dev, e.block) }

  // ~0 of the source
  const NO_BLOCK: nat := 0xFFFF_FFFF_FFFF_FFFF

  const BEST_SCORE: nat := 0xFFFF_FFFF

  function Emptied(e: Entry): Entry { e.(loaded := false, dev := 0, block := NO_BLOCK, dirty := false, tr := 0) }

  function Taken(e: Entry, k: Key): Entry { e.(dev := k.dev, block := k.block, loaded := false) }

  ghost predicate EntryOk(e: Entry, disk: map<Key, Content>)
  {
    && (e.dirty <==> e.tr != 0) && (e.dirty ==> e.loaded) && (e.loaded ==> e.dev != 0) && (e.dirtyRef ==> e.refs == 1)
    && (e.dev != 0 ==> KeyOf(e) in disk)
    && (e.loaded && !e.dirty ==> disk[KeyOf(e)] == e.data)
  }

  // At most one entry per block; a loaded clean entry equals the disk.
  ghost predicate Coherent(es: seq<Entry>, disk: map<Key, Content>)
  {
    && (forall i :: 0 <= i < |es| ==> EntryOk(es[i], disk))
    && (forall i, j :: 0 <= i < |es| && 0 <= j < |es| && es[i].dev != 0 && For(es[j], KeyOf(es[i])) ==> i == j)
  }

  // What a reader of block k sees.
  ghost function View(es: seq<Entry>, disk: map<Key, Content>, k: Key): Content
    requires k in disk
  {
    if exists i :: 0 <= i < |es| && Hit(es[i], k) then
      var i :| 0 <= i < |es| && Hit(es[i], k);
      es[i].data
    else disk[k]
  }

  lemma ViewHit(es: seq<Entry>, disk: map<Key, Content>, k: Key, i: nat)
    requires Coherent(es, disk) && k in disk && i < |es| && For(es[i], k)
    ensures View(es, disk, k) == if es[i].loaded then es[i].data else disk[k]
  {
    if exists j :: 0 <= j < |es| && Hit(es[j], k) {
      forall j | 0 <= j < |es| && Hit(es[j], k)
        ensures j == i
      {
        assert For(es[j], KeyOf(es[i]));
      }
    }
  }

  lemma ViewMiss(es: seq<Entry>, disk: map<Key, Content>, k: Key)
    requires k in disk && forall i :: 0 <= i < |es| ==> !Hit(es[i], k)
    ensures View(es, disk, k) == disk[k]
  {
  }

  // Changing entry i and the disk block it stands for leaves every other block alone.
  lemma {:induction false} ViewOther(es: seq<Entry>, disk: map<Key, Content>, es': seq<Entry>, disk': map<Key,
                                     Content>, i: nat, k: Key)
    requires Coherent(es, disk) && Coherent(es', disk') && i < |es| == |es'| && es' == es[i := es'[i]]
    requires k in disk && k in disk' && disk[k] == disk'[k] && !For(es[i], k) && !For(es'[i], k)
    ensures View(es', disk', k) == View(es, disk, k)
  {
    if j :| 0 <= j < |es| && Hit(es[j], k) {
      ViewHit(es, disk, k, j);
      ViewHit(es', disk', k, j);
    } else {
      forall j | 0 <= j < |es'|
        ensures !Hit(es'[j], k)
      {
        assert j != i ==> es'[j] == es[j];
      }
    }
  }

  // One entry changes and stays coherent.
  lemma {:induction false} CoherentSet(es: seq<Entry>, disk: map<Key, Content>, i: nat, e: Entry)
    requires Coherent(es, disk) && i < |es| && EntryOk(e, disk)
    requires e.dev != 0 ==> forall j :: 0 <= j < |es| && j != i ==> !For(es[j], KeyOf(e))
    ensures Coherent(es[i := e], disk)
  {
    var D := es[i := e];
    forall a, b | 0 <= a < |D| && 0 <= b < |D| && D[a].dev != 0 && For(D[b], KeyOf(D[a]))
      ensures a == b
    {
      if a != i && b != i {
        assert For(es[b], KeyOf(es[a]));
      }
    }
  }

  // Writing an entry back: the disk changes, nobody's view does.
  lemma {:induction false} WriteBack(es: seq<Entry>, disk: map<Key, Content>, i: nat)
    requires Coherent(es, disk) && i < |es| && es[i].dirty && !es[i].dirtyRef
    ensures var es', disk' := es[i := es[i].(dirty := false, tr := 0)], disk[KeyOf(es[i]) := es[i].data];
            && Coherent(es', disk') && disk'.Keys == disk.Keys
            && forall k :: k in disk ==> View(es', disk', k) == View(es, disk, k)
  {
    var kv := KeyOf(es[i]);
    var es', disk' := es[i := es[i].(dirty := false, tr := 0)], disk[kv := es[i].data];
    forall j | 0 <= j < |es|
      ensures EntryOk(es'[j], disk')
    {
      assert EntryOk(es[j], disk);
      if j != i {
        assert !For(es[j], kv);
      }
    }
    forall a, b | 0 <= a < |es'| && 0 <= b < |es'| && es'[a].dev != 0 && For(es'[b], KeyOf(es'[a]))
      ensures a == b
    {
      assert For(es[b], KeyOf(es[a]));
    }
    forall k | k in disk
      ensures View(es', disk', k) == View(es, disk, k)
    {
      if k == kv {
        ViewHit(es, disk, k, i);
        ViewHit(es', disk', k, i);
      } else {
        ViewOther(es, disk, es', disk', i, k);
      }
    }
  }

  // A clean entry is given to another block that has none.
  lemma {:induction false} Reassign(es: seq<Entry>, disk: map<Key, Content>, i: nat, k: Key)
    requires Coherent(es, disk) && i < |es| && !es[i].dirty && k in disk && k.dev != 0
             && forall j :: 0 <= j < |es| ==> !For(es[j], k)
    ensures var es' := es[i := Taken(es[i], k)];
            Coherent(es', disk) && forall x :: x in disk ==> View(es', disk, x) == View(es, disk, x)
  {
    var e := Taken(es[i], k);
    var es' := es[i := e];
    CoherentSet(es, disk, i, e);
    forall x | x in disk
      ensures View(es', disk, x) == View(es, disk, x)
    {
      if x == k {
        ViewMiss(es, disk, x);
        ViewHit(es', disk, x, i);
      } else if For(es[i], x) {
        ViewHit(es, disk, x, i);
        assert x == KeyOf(es[i]);
        forall j | 0 <= j < |es'|
          ensures !Hit(es'[j], x)
        {
          assert j != i ==> es'[j] == es[j];
        }
        ViewMiss(es', disk, x);
      } else {
        ViewOther(es, disk, es', disk, i, x);
      }
    }
  }

  // Entry i keeps its block but changes its data or state.
  lemma {:induction false} Rewrite(es: seq<Entry>, disk: map<Key, Content>, i: nat, e: Entry)
    requires Coherent(es, disk) && i < |es| && es[i].dev != 0 && KeyOf(e) == KeyOf(es[i]) && EntryOk(e, disk)
    ensures Coherent(es[i := e], disk)
            && View(es[i := e], disk, KeyOf(e)) == if e.loaded then e.data else disk[KeyOf(e)]
    ensures forall k :: k in disk && k != KeyOf(e) ==> View(es[i := e], disk, k) == View(es, disk, k)
  {
    var D := es[i := e];
    assert forall j :: 0 <= j < |es| && For(es[j], KeyOf(es[i])) ==> j == i;
    CoherentSet(es, disk, i, e);
    ViewHit(D, disk, KeyOf(e), i);
    forall k | k in disk && k != KeyOf(e)
      ensures View(D, disk, k) == View(es, disk, k)
    {
      ViewOther(es, disk, D, disk, i, k);
    }
  }

  // Entry i is emptied: its block is read from disk again.
  lemma {:induction false} Drop(es: seq<Entry>, disk: map<Key, Content>, i: nat, e: Entry)
    requires Coherent(es, disk) && i < |es| && es[i].dev != 0 && e.dev == 0 && EntryOk(e, disk)
    ensures Coherent(es[i := e], disk) && View(es[i := e], disk, KeyOf(es[i])) == disk[KeyOf(es[i])]
    ensures var D := es[i := e]; forall j :: 0 <= j < |D| ==> !For(D[j], KeyOf(es[i]))
    ensures forall k :: k in disk && k != KeyOf(es[i]) ==> View(es[i := e], disk, k) == View(es, disk, k)
  {
    var D, kv := es[i := e], KeyOf(es[i]);
    CoherentSet(es, disk, i, e);
    forall j | 0 <= j < |D|
      ensures !For(D[j], kv)
    {
      assert j != i ==> D[j] == es[j];
    }
    ViewMiss(D, disk, kv);
    forall k | k in disk && k != kv
      ensures View(D, disk, k) == View(es, disk, k)
    {
      ViewOther(es, disk, D, disk, i, k);
    }
  }

  // A clean entry moves to block `to`, which has no entry, and becomes dirty there.
  lemma {:induction false} MoveTo(es: seq<Entry>, disk: map<Key, Content>, i: nat, to: Key, e: Entry)
    requires Coherent(es, disk) && i < |es| && es[i].loaded && !es[i].dirty && to in disk && to.dev == es[i].dev
    requires (forall j :: 0 <= j < |es| ==> !For(es[j], to)) && KeyOf(e) == to && e.data == es[i].data && e.dirty
             && EntryOk(e, disk)
    ensures Coherent(es[i := e], disk) && View(es[i := e], disk, to) == es[i].data
    ensures forall k :: k in disk && k != to ==> View(es[i := e], disk, k) == View(es, disk, k)
  {
    var D, kv := es[i := e], KeyOf(es[i]);
    CoherentSet(es, disk, i, e);
    ViewHit(D, disk, to, i);
    forall k | k in disk && k != to
      ensures View(D, disk, k) == View(es, disk, k)
    {
      if k == kv {
        ViewHit(es, disk, k, i);
        forall j | 0 <= j < |D|
          ensures !Hit(D[j], k)
        {
          assert j != i ==> D[j] == es[j];
        }
        ViewMiss(D, disk, k);
      } else {
        ViewOther(es, disk, D, disk, i, k);
      }
    }
  }

  // Transaction t has changed block k.
  ghost predicate DirtyIn(es: seq<Entry>, k: Key, t: nat)
  {
    exists j :: 0 <= j < |es| && es[j].tr == t && For(es[j], k)
  }

  // Only blocks that transaction t changed for good differ.
  ghost predicate Untouched(es: seq<Entry>, d: map<Key, Content>, disk: map<Key, Content>, t: nat)
  {
    d.Keys == disk.Keys && forall k :: k in d && disk[k] != d[k] ==>
        exists j :: 0 <= j < |es| && Picked(es[j], t) && For(es[j], k)
  }

  // References do not matter to what is seen.
  lemma {:induction false} Released(es: seq<Entry>, disk: map<Key, Content>, i: nat, e: Entry)
    requires Coherent(es, disk) && i < |es| && e == es[i].(refs := e.refs, dirtyRef := false)
    ensures Coherent(es[i := e], disk) && forall k :: k in disk ==> View(es[i := e], disk, k) == View(es, disk, k)
  {
    assert EntryOk(es[i], disk);
    if e.dev != 0 {
      ViewHit(es, disk, KeyOf(e), i);
      Rewrite(es, disk, i, e);
    } else {
      CoherentSet(es, disk, i, e);
      forall k | k in disk
        ensures View(es[i := e], disk, k) == View(es, disk, k)
      {
        ViewOther(es, disk, es[i := e], disk, i, k);
      }
    }
  }

  lemma OneEntry(es: seq<Entry>, disk: map<Key, Content>, k: Key, i: nat)
    requires Coherent(es, disk) && i < |es| && For(es[i], k)
    ensures KeyOf(es[i]) == k && forall j :: 0 <= j < |es| && For(es[j], k) ==> j == i
  {
    forall j | 0 <= j < |es| && For(es[j], k)
      ensures j == i
    {
      assert For(es[j], KeyOf(es[i]));
    }
  }

  // Dropping transaction t's data in an entry.
  function Discarded(e: Entry, t: nat): Entry { if e.tr == t then e.(dirty := false, tr := 0, loaded := false) else e }

  predicate Picked(e: Entry, t: nat) { e.tr == t && !e.dirtyTmp }

  function Written(e: Entry, t: nat): Entry { if Picked(e, t) then e.(dirty := false, tr := 0) else e }

  function Without(s: seq<nat>, i: nat): (r: seq<nat>)
    ensures i !in r && forall x :: x != i ==> (x in r <==> x in s)
  {
    if s == [] then [] else (if s[0] == i then [] else [s[0]]) + Without(s[1..], i)
  }

  ghost predicate Distinct(s: seq<nat>)
  {
    forall x, y :: 0 <= x < |s| && 0 <= y < |s| && s[x] == s[y] ==> x == y
  }

  // Taking out the one occurrence keeps the order of the others.
  lemma {:induction false} WithoutAt(s: seq<nat>, n: nat)
    requires n < |s| && Distinct(s)
    ensures Without(s, s[n]) == s[..n] + s[n + 1..]
  {
    if n == 0 {
      WithoutNone(s[1..], s[0]);
    } else {
      assert s[0] != s[n];
      WithoutAt(s[1..], n - 1);
      assert s[..n] == [s[0]] + s[1..][..n - 1];
    }
  }

  lemma {:induction false} WithoutNone(s: seq<nat>, i: nat)
    requires i !in s
    ensures Without(s, i) == s
  {
    if s != [] {
      WithoutNone(s[1..], i);
    }
  }

  // Moving position n of the list to its head.
  function ToHead(s: seq<nat>, n: nat): seq<nat>
    requires n < |s|
  {
    [s[n]] + s[..n] + s[n + 1..]
  }

  lemma {:induction false} ToHeadSame(s: seq<nat>, n: nat)
    requires n < |s| && Distinct(s)
    ensures Distinct(ToHead(s, n)) && forall x :: x in s <==> x in ToHead(s, n)
  {
    WithoutAt(s, n);
    forall x, y | 0 <= x < |s| && 0 <= y < |s| && ToHead(s, n)[x] == ToHead(s, n)[y]
      ensures x == y
    {
      ToHeadAt(s, n, x);
      ToHeadAt(s, n, y);
    }
  }

  lemma ToHeadAt(s: seq<nat>, n: nat, x: nat)
    requires n < |s| && x < |s|
    ensures ToHead(s, n)[x] == s[if x == 0 then n else if x <= n then x - 1 else x]
  {
  }

  // block_cache_entry_score
  function Score(e: Entry, index: nat): nat
  {
    if e.dev == 0 then BEST_SCORE else (if e.dirty then if e.dirtyTmp then 1 else 2 else 4) * index
  }

  // Number of entries without references among the first n of the list.
  ghost function Idle(es: seq<Entry>, lru: seq<nat>, n: nat): nat
    requires n <= |lru| && forall x :: 0 <= x < |lru| ==> lru[x] < |es|
  {
    if n == 0 then 0 else Idle(es, lru, n - 1) + if es[lru[n - 1]].refs == 0 then 1 else 0
  }

  ghost function ScoreAt(es: seq<Entry>, lru: seq<nat>, n: nat): nat
    requires n < |lru| && forall x :: 0 <= x < |lru| ==> lru[x] < |es|
  {
    Score(es[lru[n]], Idle(es, lru, n))
  }

  // Among the first m of the list, the entry at n is the last with the best score.
  ghost predicate Preferred(es: seq<Entry>, lru: seq<nat>, n: nat, m: nat)
    requires m <= |lru| && forall x :: 0 <= x < |lru| ==> lru[x] < |es|
  {
    && n < m && es[lru[n]].refs == 0
    && forall x :: 0 <= x < m && es[lru[x]].refs == 0 ==>
                     if x <= n then ScoreAt(es, lru, x) <= ScoreAt(es, lru, n)
                       else ScoreAt(es, lru, x) < ScoreAt(es, lru, n)
  }

  lemma {:induction false} IdleGrows(es: seq<Entry>, lru: seq<nat>, a: nat, b: nat)
    requires a <= b <= |lru| && forall x :: 0 <= x < |lru| ==> lru[x] < |es|
    ensures Idle(es, lru, a) <= Idle(es, lru, b) <= b
    ensures a < b && es[lru[a]].refs == 0 ==> Idle(es, lru, a) < Idle(es, lru, b)
  {
    if b > 0 {
      IdleGrows(es, lru, if a < b then a else b - 1, b - 1);
    }
  }

  predicate SameKind(e: Entry, f: Entry)
  {
    e.dirty == f.dirty && (e.dirty ==> e.dirtyTmp == f.dirtyTmp)
  }

  // The entry that is replaced is the least recently used of its kind. One that has to be written back
  // is taken only if it has twice as many entries before it as any that has not, and one with a
  // temporary block only if it has four times as many. One that holds no block goes first.
  lemma {:induction false} LeastRecent(es: seq<Entry>, lru: seq<nat>, n: nat, x: nat)
    requires (forall x :: 0 <= x < |lru| ==> lru[x] < |es|) && Preferred(es, lru, n, |lru|)
    requires x < |lru| && es[lru[x]].refs == 0
    ensures var e, f, i, j := es[lru[n]], es[lru[x]], Idle(es, lru, n), Idle(es, lru, x);
            && (e.dev != 0 && f.dev != 0 ==>
                 && (SameKind(e, f) ==> x <= n)
                 && (e.dirty && !f.dirty ==> 2 * j <= i && (e.dirtyTmp ==> 4 * j <= i))
                 && (e.dirty && e.dirtyTmp && f.dirty && !f.dirtyTmp ==> 2 * j <= i))
            && (f.dev == 0 && |lru| < 0x4000_0000 ==> e.dev == 0)
  {
    IdleGrows(es, lru, n, n);
    if n < x {
      IdleGrows(es, lru, n, x);
    }
    assert if x <= n then ScoreAt(es, lru, x) <= ScoreAt(es, lru, n) else ScoreAt(es, lru, x) < ScoreAt(es, lru, n);
  }

  lemma IdleEntry(es: seq<Entry>, lru: seq<nat>, n: nat)
    requires (forall x :: 0 <= x < |lru| ==> lru[x] < |es|) && Preferred(es, lru, n, |lru|)
    ensures n < |lru| && lru[n] < |es| && es[lru[n]].refs == 0
  {
    assert lru[n] in lru;
  }

  // The MAC a reader expects, if it knows it.
  datatype Mac = AnyMac | Expect(tag: nat)

  class Cache {
    const entries: array<Entry>
    const mac: Content -> nat
    var lru: seq<nat>
    var disk: map<Key, Content>

    // block_cache_init
    constructor (count: nat, d: map<Key, Content>, mac: Content -> nat)
      ensures Valid() && fresh(entries) && entries.Length == count && disk == d && this.mac == mac
              && forall k :: k in d ==> Sees(k) == d[k]
    {
      var e := Entry(0, NO_BLOCK, 0, false, false, false, false, 0, 0);
      this.mac := mac;
      entries := new Entry[count](_ => e);
      lru, disk := [], d;
      new;
      for n := 0 to count
        invariant forall i :: 0 <= i < count ==> entries[i] == e
        invariant disk == d && (forall i :: 0 <= i < n ==> i in lru) && (forall x :: 0 <= x < |lru| ==> lru[x] < n)
                  && Distinct(lru)
      {
        lru := [n] + lru;
      }
    }

    ghost predicate Valid()
      reads this, entries
    {
      && Coherent(entries[..], disk)
      && (forall i :: 0 <= i < entries.Length ==> i in lru) && (forall x :: 0 <= x < |lru| ==> lru[x] < entries.Length)
      && Distinct(lru)
    }

    // What a reader of block k sees.
    ghost function Sees(k: Key): Content
      reads this, entries
      requires k in disk
    {
      View(entries[..], disk, k)
    }

    ghost predicate SeesAs(es: seq<Entry>, d: map<Key, Content>)
      reads this, entries
    {
      disk.Keys == d.Keys && forall k :: k in disk ==> Sees(k) == View(es, d, k)
    }

    // block_cache_entry_clean, followed by the completion of the write
    method Clean(i: nat)
      requires Valid() && i < entries.Length && !entries[i].dirtyRef
      modifies this`disk, entries
      ensures Valid() && SeesAs(old(entries[..]), old(disk))
      ensures entries[..] == old(entries[..])[i := old(entries[i]).(dirty := false, tr := 0)]
      ensures disk == if old(entries[i].dirty) then old(disk)[KeyOf(old(entries[i])) := old(entries[i]).data]
              else old(disk)
    {
      var e := entries[i];
      if !e.dirty {
        assert EntryOk(entries[..][i], disk);
        assert entries[..] == entries[..][i := e.(dirty := false, tr := 0)];
        return;
      }
      ghost var es := entries[..];
      WriteBack(es, disk, i);
      disk := disk[KeyOf(e) := e.data];
      entries[i] := e.(dirty := false, tr := 0);
      assert entries[..] == es[i := e.(dirty := false, tr := 0)];
    }

    lemma NoEntry(k: Key)
      requires Valid() && forall x :: 0 <= x < |lru| ==> lru[x] < entries.Length && !For(entries[lru[x]], k)
      ensures forall j :: 0 <= j < entries.Length ==> !For(entries[j], k)
    {
      forall j: nat | j < entries.Length
        ensures !For(entries[j], k)
      {
        assert j in lru;
      }
    }

    lemma AllUsed()
      requires Valid() && forall x :: 0 <= x < |lru| ==> lru[x] < entries.Length && entries[lru[x]].refs > 0
      ensures forall j :: 0 <= j < entries.Length ==> entries[j].refs > 0
    {
      forall j: nat | j < entries.Length
        ensures entries[j].refs > 0
      {
        assert j in lru;
      }
    }

    // The entry for block k, or the entry to use for it, number `at` of the list.
    method Search(k: Key) returns (found: int, unused: int, ghost at: nat)
      requires Valid()
      ensures -1 <= found < entries.Length && -1 <= unused < entries.Length
      ensures if found >= 0 then For(entries[found], k) else forall j :: 0 <= j < entries.Length ==> !For(entries[j], k)
      ensures found < 0 && unused < 0 ==> forall j :: 0 <= j < entries.Length ==> entries[j].refs > 0
      ensures found < 0 && unused >= 0 ==> at < |lru| && lru[at] == unused && Preferred(entries[..], lru, at, |lru|)
    {
      ghost var es := entries[..];
      var best: nat, available: nat := 0, 0;
      unused, at := -1, 0;
      for n := 0 to |lru|
        invariant forall x :: 0 <= x < n ==> lru[x] < entries.Length && !For(entries[lru[x]], k)
        invariant available == Idle(es, lru, n)
        invariant if unused < 0 then unused == -1 && best == 0 && forall x :: 0 <= x < n ==> entries[lru[x]].refs > 0
                  else at < n && lru[at] == unused && Preferred(es, lru, at, n) && best == ScoreAt(es, lru, at)
      {
        var e := entries[lru[n]];
        if For(e, k) {
          return lru[n], -1, 0;
        }
        if e.refs == 0 {
          var score := Score(e, available);
          available := available + 1;
          if score >= best {
            unused, best, at := lru[n], score, n;
          }
        }
      }
      found := -1;
      NoEntry(k);
      if unused < 0 {
        AllUsed();
      } else {
        assert lru[at] in lru;
      }
    }

    // block_cache_lookup: the entry for block k; with `allocate` an entry nobody uses is taken for it.
    method Lookup(k: Key, allocate: bool) returns (i: int)
      requires Valid() && k in disk && k.dev != 0
      modifies this`disk, entries
      ensures Valid() && SeesAs(old(entries[..]), old(disk))
      ensures -1 <= i < entries.Length && (i >= 0 ==> For(entries[i], k))
      ensures forall j :: 0 <= j < entries.Length && j != i ==> entries[j] == old(entries[j])
      ensures i >= 0 && entries[i] != old(entries[i]) ==>
                allocate && old(entries[i]).refs == 0 == entries[i].refs && !entries[i].loaded && !entries[i].dirty
      ensures i >= 0 && entries[i] != old(entries[i]) ==>
                exists n :: 0 <= n < |lru| && lru[n] == i && old(Preferred(entries[..], lru, n, |lru|))
      ensures i < 0 ==> disk == old(disk) && forall j :: 0 <= j < entries.Length ==>
                !For(entries[j], k) && (allocate ==> entries[j].refs > 0)
      ensures !allocate ==> disk == old(disk)
    {
      hide View, Preferred;
      var found, unused, at := Search(k);
      if found >= 0 {
        return found;
      }
      if unused < 0 || !allocate {
        return -1;
      }
      i := unused;
      IdleEntry(entries[..], lru, at);
      assert EntryOk(entries[..][i], disk);
      Clean(i);
      ghost var es := entries[..];
      Reassign(es, disk, i, k);
      entries[i] := Taken(entries[i], k);
      assert entries[..] == es[i := Taken(es[i], k)];
    }

    // block_cache_load_entry; `fails` stands for an error of the device.
    method Load(i: nat, fails: bool, want: Mac) returns (ok: bool)
      requires Valid() && i < entries.Length && entries[i].dev != 0
      requires entries[i].loaded || entries[i].refs == 0
      modifies entries
      ensures Valid() && SeesAs(old(entries[..]), disk)
      ensures entries[..] == old(entries[..])[i := entries[i]]
      ensures entries[i] == old(entries[i]).(loaded := old(entries[i].loaded) || !fails, data := entries[i].data)
      ensures old(entries[i].loaded) ==> entries[i] == old(entries[i])
      ensures entries[i].loaded ==> KeyOf(entries[i]) in disk && entries[i].data == Sees(KeyOf(entries[i]))
      ensures ok <==> entries[i].loaded && (want.Expect? ==> mac(entries[i].data) == want.tag)
    {
      ghost var es := entries[..];
      var e := entries[i];
      assert EntryOk(es[i], disk);
      ViewHit(es, disk, KeyOf(e), i);
      if !e.loaded && !fails {
        var f := e.(data := disk[KeyOf(e)], loaded := true);
        Rewrite(es, disk, i, f);
        entries[i] := f;
        assert entries[..] == es[i := f];
      } else {
        assert es == es[i := e];
      }
      ok := entries[i].loaded && (want.Expect? ==> mac(entries[i].data) == want.tag);
    }

    // block_cache_get: a reference to the entry for block k, with the block's data if `load`.
    method Get(k: Key, load: bool, fails: bool, want: Mac) returns (i: int)
      requires Valid() && k.dev != 0
      requires forall j :: 0 <= j < entries.Length && For(entries[j], k) ==>
                 !entries[j].dirtyRef && (load && entries[j].refs > 0 ==> entries[j].loaded)
      modifies this`disk, entries
      ensures Valid() && SeesAs(old(entries[..]), old(disk))
      ensures -1 <= i < entries.Length
              && forall j :: 0 <= j < entries.Length && j != i && old(entries[j]).refs > 0 ==>
                   entries[j] == old(entries[j])
      ensures i >= 0 ==> k in disk && For(entries[i], k) && entries[i].refs == old(entries[i]).refs + 1
                         && (load ==> entries[i].loaded)
      ensures i >= 0 && entries[i].loaded ==> entries[i].data == old(Sees(k))
      ensures i >= 0 && load && want.Expect? ==> mac(entries[i].data) == want.tag
      ensures i < 0 && k in disk ==> || (load && (fails || (want.Expect? && mac(old(Sees(k))) != want.tag)))
                                     || forall j :: 0 <= j < entries.Length ==> entries[j].refs > 0
    {
      hide View;
      if k !in disk {
        return -1;
      }
      i := Lookup(k, true);
      if i < 0 {
        return -1;
      }
      assert EntryOk(entries[..][i], disk);
      if load {
        var ok := Load(i, fails, want);
        if !ok {
          assert KeyOf(entries[i]) == k;
          return -1;
        }
      }
      ghost var es := entries[..];
      var f := entries[i].(refs := entries[i].refs + 1);
      assert EntryOk(es[i], disk);
      ViewHit(es, disk, k, i);
      Rewrite(es, disk, i, f);
      entries[i] := f;
      assert entries[..] == es[i := f];
    }

    // block_dirty: the only holder of entry i starts to change it for transaction t.
    method Dirty(i: nat, t: nat, tmp: bool)
      requires Valid() && i < entries.Length && t != 0 && entries[i].dev != 0 && entries[i].refs == 1
               && !entries[i].dirtyRef
      requires entries[i].tr == 0 || entries[i].tr == t
      modifies entries
      ensures Valid() && entries[..] == old(entries[..])[i :=
              old(entries[i]).(loaded := true, dirty := true, dirtyRef := true, dirtyTmp := tmp, tr := t)]
      ensures KeyOf(entries[i]) in disk && Sees(KeyOf(entries[i])) == old(entries[i]).data
      ensures forall k :: k in disk && k != KeyOf(entries[i]) ==> Sees(k) == old(Sees(k))
    {
      ghost var es := entries[..];
      var f := entries[i].(loaded := true, dirty := true, dirtyRef := true, dirtyTmp := tmp, tr := t);
      assert EntryOk(es[i], disk);
      Rewrite(es, disk, i, f);
      entries[i] := f;
      assert entries[..] == es[i := f];
    }

    // A write through the pointer that block_dirty returned.
    method Write(i: nat, data: Content)
      requires Valid() && i < entries.Length && entries[i].dirty && entries[i].dirtyRef
      modifies entries
      ensures Valid() && entries[..] == old(entries[..])[i := old(entries[i]).(data := data)]
      ensures KeyOf(entries[i]) in disk && Sees(KeyOf(entries[i])) == data
      ensures forall k :: k in disk && k != KeyOf(entries[i]) ==> Sees(k) == old(Sees(k))
    {
      ghost var es := entries[..];
      var f := entries[i].(data := data);
      assert EntryOk(es[i], disk);
      Rewrite(es, disk, i, f);
      entries[i] := f;
      assert entries[..] == es[i := f];
    }

    // block_put and block_put_dirty: give the reference back; an entry without references
    // moves to the head of the list.
    method Put(i: nat)
      requires Valid() && i < entries.Length && entries[i].refs > 0
      modifies this`lru, entries
      ensures Valid() && SeesAs(old(entries[..]), disk)
      ensures entries[..] == old(entries[..])[i :=
              old(entries[i]).(refs := old(entries[i]).refs - 1, dirtyRef := false)]
      ensures if entries[i].refs == 0
              then exists n :: 0 <= n < |old(lru)| && old(lru[n]) == i && lru == ToHead(old(lru), n)
              else lru == old(lru)
    {
      ghost var es := entries[..];
      var e := entries[i];
      var f := e.(refs := e.refs - 1, dirtyRef := false);
      assert EntryOk(es[i], disk);
      Released(es, disk, i, f);
      entries[i] := f;
      assert entries[..] == es[i := f];
      if f.refs == 0 {
        assert i in lru;
        ghost var n: nat :| n < |lru| && lru[n] == i;
        WithoutAt(lru, n);
        ToHeadSame(lru, n);
        lru := [i] + Without(lru, i);
        assert lru == ToHead(old(lru), n);
        assert forall x :: 0 <= x < |lru| ==> lru[x] in old(lru);
      }
    }

    // block_move: the clean block in entry i is rewritten at block `to`.
    method Move(i: nat, to: Key, t: nat, tmp: bool)
      requires Valid() && i < entries.Length && entries[i].loaded && !entries[i].dirty && entries[i].refs == 1
               && !entries[i].dirtyRef
      requires t != 0 && to in disk && to.dev == entries[i].dev
      requires forall j :: 0 <= j < entries.Length && For(entries[j], to) ==> entries[j].refs == 0
      modifies this`disk, entries
      ensures Valid() && disk == old(disk)
      ensures entries[i] == old(entries[i]).(block := to.block, dirty := true, dirtyRef := true, dirtyTmp := tmp,
              tr := t)
      ensures Sees(to) == old(entries[i]).data == old(Sees(KeyOf(entries[i])))
      ensures forall k :: k in disk && k != to ==> Sees(k) == old(Sees(k))
      ensures forall j :: 0 <= j < entries.Length && j != i ==> entries[j] == if For(old(entries[j]), to)
              then Emptied(old(entries[j])) else old(entries[j])
    {
      hide View;
      ghost var was := entries[..];
      assert EntryOk(was[i], disk);
      ViewHit(was, disk, KeyOf(was[i]), i);
      var e := entries[i];
      var dest := Lookup(to, false);
      assert entries[..] == was;
      if dest >= 0 {
        assert EntryOk(was[dest], disk);
        OneEntry(was, disk, to, dest);
        Drop(was, disk, dest, Emptied(was[dest]));
        entries[dest] := Emptied(entries[dest]);
        assert entries[..] == was[dest := Emptied(was[dest])];
      }
      ghost var es := entries[..];
      var f := e.(block := to.block, dirty := true, dirtyRef := true, dirtyTmp := tmp, tr := t);
      MoveTo(es, disk, i, to, f);
      entries[i] := f;
      assert entries[..] == es[i := f];
    }

    // block_cache_clean_transaction
    method CleanTransaction(t: nat)
      requires Valid() && t != 0 && forall j :: 0 <= j < entries.Length && entries[j].tr == t ==> !entries[j].dirtyRef
      modifies this`disk, entries
      ensures Valid() && SeesAs(old(entries[..]), old(disk))
      ensures forall j :: 0 <= j < entries.Length ==> entries[j] == Written(old(entries[j]), t)
      ensures forall j :: 0 <= j < entries.Length && Picked(old(entries[j]), t) ==>
                KeyOf(entries[j]) in disk && disk[KeyOf(entries[j])] == entries[j].data
      ensures Untouched(old(entries[..]), old(disk), disk, t)
    {
      hide View;
      ghost var was := entries[..];
      for n := 0 to |lru|
        invariant Valid() && SeesAs(was, old(disk)) && Untouched(was, old(disk), disk, t) && entries.Length == |was|
        invariant forall j: nat :: j < |was| ==> entries[j] == if j in lru[..n] then Written(was[j], t) else was[j]
      {
        ghost var es, d := entries[..], disk;
        assert lru[..n + 1] == lru[..n] + [lru[n]];
        if Picked(entries[lru[n]], t) {
          assert was[lru[n]] == es[lru[n]];
          assert EntryOk(es[lru[n]], d);
          Clean(lru[n]);
          assert forall j :: 0 <= j < |es| && j != lru[n] ==> entries[j] == es[j];
        }
      }
      assert lru[..|lru|] == lru;
      forall j: nat | j < |was|
        ensures entries[j] == Written(was[j], t)
      {
        assert j in lru;
      }
      forall j: nat | j < entries.Length && Picked(was[j], t)
        ensures KeyOf(entries[j]) in disk && disk[KeyOf(entries[j])] == entries[j].data
      {
        assert EntryOk(was[j], old(disk));
        assert EntryOk(entries[..][j], disk);
      }
    }

    // block_cache_discard_transaction
    method DiscardTransaction(t: nat)
      requires Valid() && t != 0
      modifies entries
      ensures Valid()
      ensures forall j :: 0 <= j < entries.Length ==> entries[j] == Discarded(old(entries[j]), t)
      ensures forall k :: k in disk ==> Sees(k) == if DirtyIn(old(entries[..]), k, t) then disk[k] else old(Sees(k))
    {
      hide View;
      ghost var was := entries[..];
      for n := 0 to |lru|
        invariant Valid() && entries.Length == |was|
        invariant forall j: nat :: j < |was| ==> entries[j] == if j in lru[..n] then Discarded(was[j], t) else was[j]
        invariant forall k :: k in disk && !DirtyIn(was, k, t) ==> Sees(k) == View(was, disk, k)
      {
        ghost var es := entries[..];
        assert lru[..n + 1] == lru[..n] + [lru[n]];
        var i := lru[n];
        if entries[i].tr == t {
          assert was[i] == es[i];
          assert EntryOk(es[i], disk);
          var f := Discarded(entries[i], t);
          Rewrite(es, disk, i, f);
          entries[i] := f;
          assert entries[..] == es[i := f];
          assert DirtyIn(was, KeyOf(f), t);
        }
      }
      assert lru[..|lru|] == lru;
      forall j: nat | j < |was|
        ensures entries[j] == Discarded(was[j], t)
      {
        assert j in lru;
      }
      forall k | k in disk && DirtyIn(was, k, t)
        ensures Sees(k) == disk[k]
      {
        var j :| 0 <= j < |was| && was[j].tr == t && For(was[j], k);
        ViewHit(entries[..], disk, k, j);
      }
    }

    // block_discard_dirty_by_block
    method DiscardDirty(k: Key)
      requires Valid() && k in disk && k.dev != 0
      requires forall j :: 0 <= j < entries.Length && For(entries[j], k) ==> entries[j].refs == 0
      modifies this`disk, entries
      ensures Valid() && disk == old(disk) && Sees(k) == disk[k]
      ensures forall x :: x in disk && x != k ==> Sees(x) == old(Sees(x))
      ensures forall j :: 0 <= j < entries.Length ==> entries[j] == if For(old(entries[j]), k) && old(entries[j]).dirty
              then Emptied(old(entries[j])) else old(entries[j])
    {
      hide View;
      ghost var es := entries[..];
      var i := Lookup(k, false);
      assert entries[..] == es;
      if i < 0 {
        ViewMiss(es, disk, k);
        return;
      }
      assert EntryOk(es[i], disk);
      OneEntry(es, disk, k, i);
      if !entries[i].dirty {
        ViewHit(es, disk, k, i);
        return;
      }
      Drop(es, disk, i, Emptied(es[i]));
      entries[i] := Emptied(entries[i]);
      assert entries[..] == es[i := Emptied(es[i])];
    }
  }
}
