// Reading, writing and cutting a file (client_tipc.c, file.c) through its block map.
module Files {
  import opened TreeSteps
  import opened TreeModel
  import opened BlockTrees
  import opened BlockMaps
  import opened FileModel

  // Blocks that exist outside this transaction keep their data.
  ghost predicate Isolated(d: Disk, d': Disk)
  {
    forall b :: b in d.busy && b !in d.own ==>
        b in d'.busy && b !in d'.own && (b in d.data ==> b in d'.data && d'.data[b] == d.data[b])
  }

  // Blocks are accounted for when the map m becomes m': a block that left it is free again if the
  // transaction had allocated it, and else freed by the commit; a block that joined it was unused and
  // is the transaction's; every other block is what it was, with the same data.
  ghost predicate Balanced(m: map<nat, nat>, d: Disk, m': map<nat, nat>, d': Disk)
  {
    Counted(m.Values, d, m'.Values, d') && d'.data - m'.Values == d.data - m'.Values
  }

  ghost predicate Counted(V: set<nat>, d: Disk, V': set<nat>, d': Disk)
  {
    && V' - V !! d.busy + d.freed
    && d'.own == d.own - (V - V') + (V' - V)
    && d'.busy == d.busy - (V - V') * d.own + (V' - V)
    && d'.freed == d.freed + (V - V' - d.own)
  }

  // The transaction's own blocks of the file stay in it.
  ghost predicate Retained(m: map<nat, nat>, d: Disk, m': map<nat, nat>)
  {
    m.Values * d.own <= m'.Values
  }

  class File {
    const bs: nat               // bytes per block
    const limit: nat            // largest read request
    const blocks: BlockMap
    var disk: Disk
    var size: nat

    ghost predicate Holds(n: nat)
      reads this, blocks, blocks.tree
    {
      blocks.Valid() && Mapped(blocks.T(), disk, bs, n)
    }

    ghost predicate Valid()
      reads this, blocks, blocks.tree
    {
      Holds(size)
    }

    ghost function B(n: nat): seq<byte>
      reads this, blocks, blocks.tree
      requires Holds(n)
    {
      Bytes(blocks.T(), disk, bs, n)
    }

    // An empty file.
    constructor (bs: nat, limit: nat, caps: Caps, disk: Disk)
      requires bs > 0 && CapsOk(caps) && disk.own <= disk.busy && disk.own !! disk.freed
      ensures Valid() && B(size) == [] && this.disk == disk && fresh(blocks) && fresh(blocks.tree)
    {
      hide BlockMap.Valid, BlockMap.T;
      this.bs, this.limit, this.disk, size := bs, limit, disk, 0;
      blocks := new BlockMap(caps);
    }

    // file_get_block_write, the copy into the block, and file_block_put_dirty
    method PutBlock(k: nat, bo: nat, chunk: seq<byte>, ghost at: nat, ghost n: nat)
      requires Holds(n) && chunk != [] && bo + |chunk| <= bs && at == k * bs + bo <= n
      modifies this`disk, blocks.tree
      ensures Holds(Max(n, at + |chunk|)) && B(Max(n, at + |chunk|)) == Spliced(old(B(n)), at, chunk)
      ensures Isolated(old(disk), disk) && Balanced(old(blocks.T()), old(disk), blocks.T(), disk)
              && Retained(old(blocks.T()), old(disk), blocks.T())
    {
      hide BlockMap.Valid, BlockMap.T, Mapped, Bytes, Spliced, Balanced, Retained;
      ghost var m, d := blocks.T(), disk;
      var b := blocks.Get(k);
      HeldAt(m, d, bs, n, k);
      var read := |chunk| != bs;
      var nb := b;
      var data := Stale(bs);
      if read {
        data := if b != 0 then disk.data[b] else seq(bs, _ => 0);
      }
      if b == 0 || b !in disk.own {
        FreshExists(disk.busy + disk.freed);
        nb :| nb != 0 && nb !in disk.busy + disk.freed;
        disk := disk.(own := disk.own + {nb}, busy := disk.busy + {nb});
        if b != 0 {
          disk := disk.(freed := disk.freed + {b});
        }
        blocks.Set(k, nb);
      }
      disk := disk.(data := disk.data[nb := Overlay(data, bo, chunk)]);
      PutHolds(m, d, bs, n, blocks.T(), disk, k, b, nb, data, bo, chunk);
      PutBalanced(m, d, bs, n, blocks.T(), disk, k, b, nb);
      PutBytes(m, d, bs, n, blocks.T(), disk, k, nb, data, bo, chunk);
    }

    // storage_file_write: fails without effect past the end of the file or without data.
    method Write(offset: nat, buf: seq<byte>) returns (ok: bool)
      requires Valid()
      modifies this, blocks.tree
      ensures Valid() && ok == (buf != [] && offset <= old(size)) && Isolated(old(disk), disk)
      ensures !ok ==> disk == old(disk) && blocks.T() == old(blocks.T())
      ensures B(size) == if ok then Spliced(old(B(size)), offset, buf) else old(B(size))
      ensures Balanced(old(blocks.T()), old(disk), blocks.T(), disk)
              && Retained(old(blocks.T()), old(disk), blocks.T())
    {
      hide BlockMap.Valid, BlockMap.T, Mapped, Bytes, Spliced, Isolated, Balanced, Retained;
      BalancedSelf(blocks.T(), disk);
      if buf == [] || offset > size {
        return false;
      }
      ghost var B0, n, m0, d0 := B(size), size, blocks.T(), disk;
      SplicedNone(B0, offset);
      PositiveBlock(blocks.T(), disk, bs, size);
      var at, done := offset, 0;
      while done < |buf|
        invariant done <= |buf| && at == offset + done && n == Max(size, at) && size == old(size)
        invariant Holds(n) && B(n) == Spliced(B0, offset, buf[..done]) && Isolated(d0, disk)
        invariant Balanced(m0, d0, blocks.T(), disk) && Retained(m0, d0, blocks.T())
      {
        var k, bo := Locate(at, bs);
        var len := if bo + (|buf| - done) > bs then bs - bo else |buf| - done;
        ghost var m, d := blocks.T(), disk;
        MappedHeld(m0, d0, bs, size);
        MappedHeld(m, d, bs, n);
        PutBlock(k, bo, buf[done..done + len], at, n);
        SplicedTwice(B0, offset, buf[..done], buf[done..done + len]);
        assert buf[..done] + buf[done..done + len] == buf[..done + len];
        BalancedTwice(m0, d0, m, d, blocks.T(), disk);
        at, done := at + len, done + len;
        n := Max(n, at);
      }
      assert buf[..done] == buf;
      if at > size {
        size := at;
      }
      ok := true;
    }

    // storage_file_read: up to len bytes from offset on, fewer at the end of the file.
    method Read(offset: nat, len: nat) returns (ok: bool, out: seq<byte>)
      requires Valid()
      ensures ok == (len <= limit && offset <= size)
      ensures out == if ok then B(size)[offset..if offset + len > size then size else offset + len] else []
    {
      hide BlockMap.Valid, BlockMap.T, Mapped, Bytes, ByteAt;
      out := [];
      if len > limit || offset > size {
        return false, [];
      }
      var end := if offset + len > size then size else offset + len;
      PositiveBlock(blocks.T(), disk, bs, size);
      var at := offset;
      BytesLength(blocks.T(), disk, bs, size);
      while at < end
        invariant offset <= at <= end && out == B(size)[offset..at]
      {
        var k, bo := Locate(at, bs);
        var n := if bo + (end - at) > bs then bs - bo else end - at;
        ReadBytes(blocks.T(), disk, bs, size, k, bo, at, n);
        var b := blocks.Get(k);
        Joined(B(size), offset, at, at + n);
        out := out + disk.data[b][bo..bo + n];
        at := at + n;
      }
      ok := true;
    }

    // storage_file_set_size: a file can only shrink.
    method SetSize(newSize: nat) returns (ok: bool)
      requires Valid()
      modifies this, blocks.tree
      ensures Valid() && ok == (newSize <= old(size)) && Isolated(old(disk), disk) && disk.data == old(disk).data
      ensures size == (if ok then newSize else old(size)) && B(size) == old(B(size))[..size]
      ensures Balanced(old(blocks.T()), old(disk), blocks.T(), disk)
      ensures forall key :: key in blocks.T() ==> key in old(blocks.T()) && blocks.T()[key] == old(blocks.T())[key]
    {
      hide BlockMap.Valid, BlockMap.T, Mapped, Bytes, Balanced;
      BalancedSelf(blocks.T(), disk);
      BytesLength(blocks.T(), disk, bs, size);
      if newSize > size {
        return false;
      }
      if newSize != size {
        PositiveBlock(blocks.T(), disk, bs, size);
        HeldAt(blocks.T(), disk, bs, size, 0);
        ghost var m, d := blocks.T(), disk;
        var out := blocks.Truncate((newSize + bs - 1) / bs);
        disk := disk.(own := disk.own - out.Values, busy := disk.busy - out.Values * disk.own,
          freed := disk.freed + (out.Values - disk.own));
        CutBytes(m, d, bs, size, out, blocks.T(), disk, newSize);
        CutBalanced(m, d, bs, size, out, blocks.T(), disk);
        size := newSize;
      }
      ok := true;
    }
  }

  lemma Joined(s: seq<byte>, i: nat, j: nat, k: nat)
    requires i <= j <= k <= |s|
    ensures s[i..j] + s[j..k] == s[i..k]
  {
  }

  lemma BalancedSelf(m: map<nat, nat>, d: Disk)
    ensures Isolated(d, d) && Balanced(m, d, m, d) && Retained(m, d, m)
  {
  }

  // The blocks of a file are in use and not freed.
  ghost predicate Clear(m: map<nat, nat>, d: Disk)
  {
    m.Values <= d.busy && m.Values !! d.freed && d.own <= d.busy && d.own !! d.freed && m.Values <= d.data.Keys
  }

  lemma MappedHeld(m: map<nat, nat>, d: Disk, bs: nat, n: nat)
    requires Mapped(m, d, bs, n)
    ensures Clear(m, d)
  {
    forall key | key in m
      ensures Held(d, m[key], bs)
    {
    }
  }

  lemma {:induction false} BalancedTwice(m: map<nat, nat>, d: Disk, m1: map<nat, nat>, d1: Disk, m2: map<nat, nat>,
                                         d2: Disk)
    requires Clear(m, d) && Clear(m1, d1)
    requires Isolated(d, d1) && Balanced(m, d, m1, d1) && Retained(m, d, m1)
    requires Isolated(d1, d2) && Balanced(m1, d1, m2, d2) && Retained(m1, d1, m2)
    ensures Isolated(d, d2) && Balanced(m, d, m2, d2) && Retained(m, d, m2)
  {
    hide Counted, Clear, Isolated;
    CountedTwice(m, d, m1, d1, m2.Values, d2);
    RetainedTwice(m, d, m1, d1, m2, d2);
    forall b
      ensures b !in m2.Values ==> (b in d2.data <==> b in d.data) && (b in d.data ==> d2.data[b] == d.data[b])
    {
      DataTwice(m, d, m1, d1, m2, d2, b);
    }
  }

  lemma {:induction false} CountedTwice(m: map<nat, nat>, d: Disk, m1: map<nat, nat>, d1: Disk, V: set<nat>, d2: Disk)
    requires Clear(m, d) && Clear(m1, d1) && Counted(m.Values, d, m1.Values, d1) && Counted(m1.Values, d1, V, d2)
    ensures Counted(m.Values, d, V, d2)
  {
  }

  lemma RetainedTwice(m: map<nat, nat>, d: Disk, m1: map<nat, nat>, d1: Disk, m2: map<nat, nat>, d2: Disk)
    requires Isolated(d, d1) && Counted(m.Values, d, m1.Values, d1) && Retained(m, d, m1)
    requires Isolated(d1, d2) && Retained(m1, d1, m2)
    ensures Isolated(d, d2) && Retained(m, d, m2)
  {
  }

  lemma {:induction false} DataTwice(m: map<nat, nat>, d: Disk, m1: map<nat, nat>, d1: Disk, m2: map<nat, nat>,
                                     d2: Disk,
                                     b: nat)
    requires Clear(m, d) && Clear(m1, d1)
    requires Isolated(d, d1) && Balanced(m, d, m1, d1) && Balanced(m1, d1, m2, d2) && Retained(m1, d1, m2)
    ensures b !in m2.Values ==> (b in d2.data <==> b in d.data) && (b in d.data ==> d2.data[b] == d.data[b])
  {
    if b !in m2.Values {
      SameData(d1, d2, m2.Values, b);
      if b !in m1.Values {
        SameData(d, d1, m1.Values, b);
      }
    }
  }

  lemma SameData(d: Disk, d': Disk, but: set<nat>, b: nat)
    requires d'.data - but == d.data - but && b !in but
    ensures b in d'.data <==> b in d.data
    ensures b in d.data ==> d'.data[b] == d.data[b]
  {
    assert b in d'.data <==> b in d'.data - but;
    assert b in d.data <==> b in d.data - but;
  }

  lemma SplicedNone(s: seq<byte>, at: nat)
    requires at <= |s|
    ensures Spliced(s, at, []) == s
  {
  }

  lemma PositiveBlock(m: map<nat, nat>, d: Disk, bs: nat, n: nat)
    requires Mapped(m, d, bs, n)
    ensures bs > 0
  {
  }

  lemma BytesLength(m: map<nat, nat>, d: Disk, bs: nat, n: nat)
    requires Mapped(m, d, bs, n)
    ensures |Bytes(m, d, bs, n)| == n
  {
  }

  method Locate(at: nat, bs: nat) returns (k: nat, bo: nat)
    requires bs > 0
    ensures bo < bs && at == k * bs + bo
  {
    k, bo := at / bs, at % bs;
    DivAt(at, bs, k);
  }

  // What an unread block buffer holds.
  method Stale(bs: nat) returns (data: seq<byte>)
    ensures |data| == bs
  {
    assert |seq(bs, _ => 0 as byte)| == bs;
    data :| |data| == bs;
  }

  lemma HeldAt(m: map<nat, nat>, d: Disk, bs: nat, n: nat, k: nat)
    requires Mapped(m, d, bs, n)
    ensures d.own <= d.busy && d.own !! d.freed && (k + 1 in m ==> Held(d, m[k + 1], bs))
  {
  }

  lemma {:induction false} PutHolds(m: map<nat, nat>, d: Disk, bs: nat, n: nat, m': map<nat, nat>, d': Disk, k: nat,
                                    b: nat, nb: nat, data: seq<byte>, bo: nat, chunk: seq<byte>)
    requires Mapped(m, d, bs, n) && b == (if k + 1 in m then m[k + 1] else 0) && m' == m[k + 1 := nb]
    requires |data| == bs && bo + |chunk| <= bs && (b != 0 && |chunk| < bs ==> b in d.data && data == d.data[b])
    requires if b != 0 && b in d.own
             then nb == b && d' == d.(data := d.data[nb := Overlay(data, bo, chunk)])
             else nb != 0 && nb !in d.busy + d.freed
                  && d' == Disk(d.data[nb := Overlay(data, bo, chunk)], d.own + {nb}, d.busy + {nb},
                     d.freed + if b != 0 then {b} else {})
    ensures Put(m, d, bs, m', d', k, nb, data, bo, chunk) && Isolated(d, d')
  {
    HeldAt(m, d, bs, n, k);
    forall key | key in m && key != k + 1
      ensures m[key] != nb && Held(d', m[key], bs) && m[key] in d.data && d'.data[m[key]] == d.data[m[key]]
    {
      assert Held(d, m[key], bs);
      assert k + 1 in m ==> m[key] != m[k + 1];
    }
  }

  lemma {:induction false} PutBalanced(m: map<nat, nat>, d: Disk, bs: nat, n: nat, m': map<nat, nat>, d': Disk, k: nat,
                                       b: nat, nb: nat)
    requires Mapped(m, d, bs, n) && b == (if k + 1 in m then m[k + 1] else 0) && m' == m[k + 1 := nb]
    requires nb in d'.data
             && d' == d.(data := d.data[nb := d'.data[nb]], own := d'.own, busy := d'.busy, freed := d'.freed)
    requires if b != 0 && b in d.own
             then nb == b && d'.own == d.own && d'.busy == d.busy && d'.freed == d.freed
             else nb != 0 && nb !in d.busy + d.freed && d'.own == d.own + {nb} && d'.busy == d.busy + {nb}
                  && d'.freed == d.freed + if b != 0 then {b} else {}
    ensures Balanced(m, d, m', d') && Retained(m, d, m')
  {
    HeldAt(m, d, bs, n, k);
    MappedHeld(m, d, bs, n);
    PutValues(m, k + 1, nb);
  }

  lemma {:induction false} PutValues(m: map<nat, nat>, key: nat, v: nat)
    requires forall a, b :: a in m && b in m && m[a] == m[b] ==> a == b
    requires v in m.Values ==> key in m && m[key] == v
    ensures m[key := v].Values == m.Values - (if key in m then {m[key]} else {}) + {v}
  {
    var m' := m[key := v];
    assert m'[key] == v;
    forall x | x in m.Values && (key in m ==> x != m[key])
      ensures x in m'.Values
    {
      var a :| a in m && m[a] == x;
      assert m'[a] == x;
    }
  }

  lemma {:induction false} CutBalanced(m: map<nat, nat>, d: Disk, bs: nat, n: nat, out: map<nat, nat>,
                                       m': map<nat, nat>, d': Disk)
    requires Mapped(m, d, bs, n) && m'.Keys !! out.Keys && m' + out == m
    requires d' == d.(own := d.own - out.Values, busy := d.busy - out.Values * d.own,
               freed := d.freed + (out.Values - d.own))
    ensures Balanced(m, d, m', d')
  {
    assert forall key :: key in m' ==> key in m && m[key] == m'[key];
    assert forall key :: key in out ==> key in m && m[key] == out[key];
    assert m'.Values <= m.Values;
    assert m.Values - m'.Values == out.Values;
  }
}
