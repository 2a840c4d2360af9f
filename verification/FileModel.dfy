// File contents as bytes in blocks.
module FileModel {

  newtype byte = x: int | 0 <= x < 256

  // Data of the disk blocks; the blocks this transaction has allocated; those that may not be
  // allocated; those it frees when it commits.
  datatype Disk = Disk(data: map<nat, seq<byte>>, own: set<nat>, busy: set<nat>, freed: set<nat>)

  // Block index key - 1 starts before byte n.
  predicate Covered(key: nat, bs: nat, n: nat) { key > 0 && (key - 1) * bs < n }

  ghost predicate Held(d: Disk, b: nat, bs: nat)
  {
    b != 0 && b in d.data && |d.data[b]| == bs && b in d.busy && b !in d.freed
  }

  // A file of n bytes: exactly the blocks that hold them are mapped, each to its own disk block.
  ghost predicate Mapped(m: map<nat, nat>, d: Disk, bs: nat, n: nat)
  {
    && bs > 0 && d.own <= d.busy && d.own !! d.freed
    && (forall key :: key in m <==> Covered(key, bs, n))
    && (forall key :: key in m ==> Held(d, m[key], bs))
    && (forall a, b :: a in m && b in m && m[a] == m[b] ==> a == b)
  }

  lemma {:induction false} MulStep(a: nat, b: nat, bs: nat)
    requires a < b
    ensures a * bs + bs <= b * bs
  {
    assert b * bs == (a + 1) * bs + (b - a - 1) * bs;
  }

  lemma {:induction false} DivAt(i: nat, bs: nat, k: nat)
    requires bs > 0
    ensures 0 <= i % bs < bs && i == (i / bs) * bs + i % bs
    ensures k * bs <= i < k * bs + bs <==> i / bs == k
  {
    assert i / bs * bs + i % bs == i;
    if i / bs < k {
      MulStep(i / bs, k, bs);
    } else if k < i / bs {
      MulStep(k, i / bs, bs);
    }
  }

  lemma {:induction false} ByteCovered(i: nat, bs: nat, n: nat)
    requires bs > 0 && i < n
    ensures Covered(i / bs + 1, bs, n)
  {
    DivAt(i, bs, i / bs);
  }

  ghost function ByteAt(m: map<nat, nat>, d: Disk, bs: nat, n: nat, i: nat): byte
    requires Mapped(m, d, bs, n) && i < n
  {
    ByteCovered(i, bs, n);
    assert Held(d, m[i / bs + 1], bs);
    d.data[m[i / bs + 1]][i % bs]
  }

  // The file as a sequence of bytes.
  ghost function Bytes(m: map<nat, nat>, d: Disk, bs: nat, n: nat): (r: seq<byte>)
    requires Mapped(m, d, bs, n)
    ensures |r| == n && forall i :: 0 <= i < n ==> r[i] == ByteAt(m, d, bs, n, i)
  {
    seq(n, i requires 0 <= i < n => ByteAt(m, d, bs, n, i))
  }

  function Max(a: nat, b: nat): nat { if a < b then b else a }

  function Overlay(s: seq<byte>, at: nat, chunk: seq<byte>): seq<byte>
    requires at + |chunk| <= |s|
  {
    s[..at] + chunk + s[at + |chunk|..]
  }

  // B with buf written at offset at, which may extend it.
  function Spliced(B: seq<byte>, at: nat, buf: seq<byte>): seq<byte>
    requires at <= |B|
  {
    B[..at] + buf + if at + |buf| <= |B| then B[at + |buf|..] else []
  }

  // Writing into block k at or before the end maps that block and no other.
  lemma {:induction false} CoverWrite(j: nat, bs: nat, n: nat, k: nat, bo: nat, len: nat)
    requires 0 < len && bo + len <= bs && k * bs + bo <= n
    ensures Covered(j, bs, Max(n, k * bs + bo + len)) <==> Covered(j, bs, n) || j == k + 1
  {
    if 0 < j {
      if j - 1 < k {
        MulStep(j - 1, k, bs);
      } else if k < j - 1 {
        MulStep(k, j - 1, bs);
      }
    }
  }

  // Block k is now at disk block nb, with chunk written over `data` at bo.
  ghost predicate Put(m: map<nat, nat>, d: Disk, bs: nat, m': map<nat, nat>, d': Disk, k: nat, nb: nat,
                      data: seq<byte>, bo: nat, chunk: seq<byte>)
  {
    && m' == m[k + 1 := nb] && |data| == bs && bo + |chunk| <= bs
    && Held(d', nb, bs) && d'.data[nb] == Overlay(data, bo, chunk)
    && d'.own <= d'.busy && d'.own !! d'.freed
    && (k + 1 in m && |chunk| < bs ==> m[k + 1] in d.data && data == d.data[m[k + 1]])
    && (forall key :: key in m && key != k + 1 ==>
         m[key] != nb && Held(d', m[key], bs) && m[key] in d.data && d'.data[m[key]] == d.data[m[key]])
  }

  lemma {:induction false} PutMapped(m: map<nat, nat>, d: Disk, bs: nat, n: nat, m': map<nat, nat>, d': Disk, k: nat,
                                     nb: nat, data: seq<byte>, bo: nat, chunk: seq<byte>)
    requires Mapped(m, d, bs, n) && chunk != [] && k * bs + bo <= n && Put(m, d, bs, m', d', k, nb, data, bo, chunk)
    ensures Mapped(m', d', bs, Max(n, k * bs + bo + |chunk|))
  {
    forall key
      ensures key in m' <==> Covered(key, bs, Max(n, k * bs + bo + |chunk|))
    {
      CoverWrite(key, bs, n, k, bo, |chunk|);
    }
  }

  lemma {:induction false} PutByte(m: map<nat, nat>, d: Disk, bs: nat, n: nat, m': map<nat, nat>, d': Disk, k: nat,
                                   nb: nat, data: seq<byte>, bo: nat, chunk: seq<byte>, i: nat)
    requires Mapped(m, d, bs, n) && chunk != [] && k * bs + bo <= n && Put(m, d, bs, m', d', k, nb, data, bo, chunk)
    requires Mapped(m', d', bs, Max(n, k * bs + bo + |chunk|)) && i < Max(n, k * bs + bo + |chunk|)
    ensures var at := k * bs + bo;
            var b := ByteAt(m', d', bs, Max(n, at + |chunk|), i);
            if at <= i < at + |chunk| then b == chunk[i - at] else i < n && b == ByteAt(m, d, bs, n, i)
  {
    DivAt(i, bs, k);
    if i < n {
      ByteCovered(i, bs, n);
    }
  }

  lemma {:induction false} PutBytes(m: map<nat, nat>, d: Disk, bs: nat, n: nat, m': map<nat, nat>, d': Disk, k: nat,
                                    nb: nat, data: seq<byte>, bo: nat, chunk: seq<byte>)
    requires Mapped(m, d, bs, n) && chunk != [] && k * bs + bo <= n && Put(m, d, bs, m', d', k, nb, data, bo, chunk)
    ensures var n' := Max(n, k * bs + bo + |chunk|);
            Mapped(m', d', bs, n') && Bytes(m', d', bs, n') == Spliced(Bytes(m, d, bs, n), k * bs + bo, chunk)
  {
    hide Put, Mapped, ByteAt;
    var at := k * bs + bo;
    var n' := Max(n, at + |chunk|);
    PutMapped(m, d, bs, n, m', d', k, nb, data, bo, chunk);
    var B, B' := Bytes(m, d, bs, n), Bytes(m', d', bs, n');
    forall i | 0 <= i < n'
      ensures B'[i] == Spliced(B, at, chunk)[i]
    {
      PutByte(m, d, bs, n, m', d', k, nb, data, bo, chunk, i);
    }
  }

  lemma SplicedTwice(B: seq<byte>, at: nat, x: seq<byte>, y: seq<byte>)
    requires at <= |B|
    ensures at + |x| <= |Spliced(B, at, x)| && Spliced(Spliced(B, at, x), at + |x|, y) == Spliced(B, at, x + y)
  {
    assert |Spliced(B, at, x)| == Max(|B|, at + |x|);
  }

  lemma {:induction false} ReadByte(m: map<nat, nat>, d: Disk, bs: nat, n: nat, k: nat, at: nat, r: nat)
    requires Mapped(m, d, bs, n) && r < bs && at == k * bs + r && at < n
    ensures k + 1 in m && Held(d, m[k + 1], bs) && d.data[m[k + 1]][r] == ByteAt(m, d, bs, n, at)
  {
    DivAt(at, bs, k);
    ByteCovered(at, bs, n);
  }

  // One block of a read.
  lemma {:induction false} ReadBytes(m: map<nat, nat>, d: Disk, bs: nat, n: nat, k: nat, bo: nat, at: nat, len: nat)
    requires Mapped(m, d, bs, n) && 0 < len && bo + len <= bs && at == k * bs + bo && at + len <= n
    ensures k + 1 in m && Held(d, m[k + 1], bs) && d.data[m[k + 1]][bo..bo + len] == Bytes(m, d, bs, n)[at..at + len]
  {
    hide Mapped, ByteAt;
    ReadByte(m, d, bs, n, k, at, bo);
    var X, Y := d.data[m[k + 1]][bo..bo + len], Bytes(m, d, bs, n)[at..at + len];
    forall i | 0 <= i < len
      ensures X[i] == Y[i]
    {
      ReadByte(m, d, bs, n, k, at + i, bo + i);
    }
  }

  // The blocks that stay when a file is cut to `size` bytes: index < DIV_ROUND_UP(size).
  lemma {:induction false} RoundUp(key: nat, bs: nat, size: nat)
    requires bs > 0 && key > 0
    ensures key <= (size + bs - 1) / bs <==> Covered(key, bs, size)
  {
    var q := (size + bs - 1) / bs;
    DivAt(size + bs - 1, bs, q);
    if key <= q {
      assert (key - 1) * bs <= (q - 1) * bs by {
        if key < q {
          MulStep(key - 1, q - 1, bs);
        }
      }
      assert q * bs == (q - 1) * bs + bs;
    } else {
      assert q * bs <= (key - 1) * bs by {
        if q < key - 1 {
          MulStep(q, key - 1, bs);
        }
      }
    }
  }

  lemma {:induction false} CutBytes(m: map<nat, nat>, d: Disk, bs: nat, n: nat, out: map<nat, nat>, m': map<nat, nat>,
                                    d': Disk, size: nat)
    requires Mapped(m, d, bs, n) && size <= n && m'.Keys !! out.Keys && m' + out == m
    requires var q := (size + bs - 1) / bs; (forall k :: k in m' ==> k <= q) && (forall k :: k in out ==> k > q)
    requires d'.data == d.data && d'.own <= d'.busy && d'.own !! d'.freed
    requires forall b :: b in d.busy && b !in d.freed && b !in out.Values ==> b in d'.busy && b !in d'.freed
    ensures Mapped(m', d', bs, size) && Bytes(m', d', bs, size) == Bytes(m, d, bs, n)[..size]
  {
    forall key
      ensures key in m' <==> Covered(key, bs, size)
    {
      if key > 0 {
        RoundUp(key, bs, size);
        assert key in m' ==> key in m;
        assert Covered(key, bs, size) ==> key in m;
      }
    }
    forall key | key in m'
      ensures Held(d', m'[key], bs)
    {
      assert key in m && m[key] == m'[key] && Held(d, m[key], bs);
      forall k | k in out
        ensures out[k] != m[key]
      {
        assert m[k] == out[k];
      }
    }
    forall a, b | a in m' && b in m' && m'[a] == m'[b]
      ensures a == b
    {
      assert m[a] == m'[a] && m[b] == m'[b];
    }
    forall i | 0 <= i < size
      ensures ByteAt(m', d', bs, size, i) == ByteAt(m, d, bs, n, i)
    {
      ByteCovered(i, bs, size);
      assert m[i / bs + 1] == m'[i / bs + 1];
    }
  }
}
