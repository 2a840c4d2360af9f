// The two super block slots of super.c: what is written, what is accepted, which one is loaded.
module SuperBlocks {

  type Byte = x: nat | x < 256

  type Bytes = seq<Byte>

  const SIZE := 128
  const MAGIC: Bytes := [0x74, 0x72, 0x75, 0x73, 0x74, 0x79, 0x73, 0x00]

  datatype Device = Device(blockSize: nat, blockNumSize: nat, macSize: nat, tamperDetecting: bool, blockCount: nat)

  datatype Option<T> = None | Some(value: T)

  // Little-endian number.
  function Number(s: Bytes): nat
  {
    if s == [] then 0 else s[0] + 256 * Number(s[1..])
  }

  function Zeros(n: nat): (s: Bytes)
    ensures |s| == n && forall i :: 0 <= i < n ==> s[i] == 0
  {
    seq(n, _ => 0)
  }

  // Where the fields of a super block are.
  function Flags(s: Bytes): nat requires |s| == SIZE { Number(s[24..28]) }
  function FsVersion(s: Bytes): nat requires |s| == SIZE { Number(s[28..32]) }
  function BlockSize(s: Bytes): nat requires |s| == SIZE { Number(s[32..36]) }
  function BlockNumSize(s: Bytes): nat requires |s| == SIZE { s[36] }
  function MacSize(s: Bytes): nat requires |s| == SIZE { s[37] }
  function BlockCount(s: Bytes): nat requires |s| == SIZE { Number(s[40..48]) }
  function FreeRoot(s: Bytes): Bytes requires |s| == SIZE { s[48..72] }
  function FilesRoot(s: Bytes): Bytes requires |s| == SIZE { s[80..104] }
  function Flags2(s: Bytes): nat requires |s| == SIZE { Number(s[124..128]) }

  // update_super_block: iv and geometry (file system version to block count) are the same kind of
  // bytes in every super block of a file system.
  function Build(iv: Bytes, ver: nat, geometry: Bytes, free: Bytes, files: Bytes): (s: Bytes)
    requires |iv| == 16 && ver < 4 && |geometry| == 20 && |free| == 24 && |files| == 24
    ensures |s| == SIZE && s[16..24] == MAGIC && s[24..28] == [ver, 0, 0, 0] == s[124..128] && s[28..48] == geometry
    ensures FreeRoot(s) == free && FilesRoot(s) == files
  {
    iv + MAGIC + [ver, 0, 0, 0] + geometry + free + Zeros(8) + files + Zeros(20) + [ver, 0, 0, 0]
  }

  // super_block_valid
  predicate SuperBlockValid(dev: Device, s: Bytes)
    requires |s| == SIZE
  {
    s[16..24] == MAGIC && Flags(s) == Flags2(s) &&
    (FsVersion(s) > 0 ||
     (&& Flags(s) < 4 && BlockSize(s) == dev.blockSize
      && dev.blockNumSize <= BlockNumSize(s) <= 8
      && dev.macSize <= MacSize(s) <= 16
      && (!dev.tamperDetecting ==> MacSize(s) == 16)
      && BlockCount(s) <= dev.blockCount))
  }

  // use_new_super
  predicate UseNewSuper(dev: Device, new_: Bytes, index: nat, old_: Option<Bytes>)
    requires |new_| == SIZE && (old_.Some? ==> |old_.value| == SIZE)
  {
    && SuperBlockValid(dev, new_) && Flags(new_) % 2 == index
    && (old_.Some? ==> (Flags(new_) - Flags(old_.value)) % 4 == 1)
  }

  // The slot the file system is started from, if any.
  function Chosen(dev: Device, slots: seq<Bytes>): Option<Bytes>
    requires |slots| == 2 && |slots[0]| == SIZE && |slots[1]| == SIZE
  {
    var first := if UseNewSuper(dev, slots[0], 0, None) then Some(slots[0]) else None;
    if UseNewSuper(dev, slots[1], 1, first) then Some(slots[1]) else first
  }

  // ---- versions and torn writes ----

  // Bytes that make every super block written with them valid.
  predicate GeometryOk(dev: Device, g: Bytes)
  {
    && |g| == 20 && Number(g[0..4]) == 0 && Number(g[4..8]) == dev.blockSize > 0
    && dev.blockNumSize <= g[8] <= 8 && dev.macSize <= g[9] <= 16 && (!dev.tamperDetecting ==> g[9] == 16)
    && Number(g[12..20]) <= dev.blockCount
  }

  lemma BuildValid(dev: Device, iv: Bytes, ver: nat, g: Bytes, free: Bytes, files: Bytes)
    requires |iv| == 16 && ver < 4 && GeometryOk(dev, g) && |free| == 24 && |files| == 24
    ensures var s := Build(iv, ver, g, free, files); SuperBlockValid(dev, s) && Flags(s) == ver
  {
    var s := Build(iv, ver, g, free, files);
    Version(s[24..28]);
    assert s[28..32] == s[28..48][0..4] && s[32..36] == s[28..48][4..8] && s[40..48] == s[28..48][12..20];
    assert s[36] == s[28..48][8] && s[37] == s[28..48][9];
  }

  lemma Version(f: Bytes)
    requires |f| == 4 && f[1] == 0 && f[2] == 0 && f[3] == 0
    ensures Number(f) == f[0]
  {
    assert f[1..][0] == 0 && f[1..][1..][0] == 0 && f[1..][1..][1..][0] == 0;
    assert f[1..][1..][1..][1..] == [];
    assert Number(f[1..][1..][1..]) == 0;
    assert Number(f[1..][1..]) == 0;
    assert Number(f[1..]) == 0;
  }

  // The slot that commit number n + 1 goes to: it cannot be taken for that commit, and if it is
  // taken for one at all it is commit n - 1.
  ghost predicate Spare(dev: Device, s: Bytes, n: nat)
  {
    && |s| == SIZE && s[25..28] == [0, 0, 0] && s[125..128] == [0, 0, 0] && FsVersion(s) == 0
    && s[124] != (n + 1) % 4
    && (s[24] == s[124] && BlockSize(s) == dev.blockSize ==> n > 0 && s[24] == (n - 1) % 4)
  }

  // The first k bytes of a super block write reached the slot.
  function Torn(old_: Bytes, new_: Bytes, k: nat): (t: Bytes)
    requires |old_| == |new_| == SIZE && k <= SIZE
    ensures |t| == SIZE && (forall i :: 0 <= i < k ==> t[i] == new_[i])
            && (forall i :: k <= i < SIZE ==> t[i] == old_[i])
  {
    new_[..k] + old_[k..]
  }

  // A torn write is either complete or leaves the slot as useless as before.
  lemma TornSpare(dev: Device, s: Bytes, n: nat, iv: Bytes, g: Bytes, free: Bytes, files: Bytes, k: nat)
    requires Spare(dev, s, n) && |iv| == 16 && GeometryOk(dev, g) && |free| == 24 && |files| == 24 && k <= SIZE
    ensures var b := Build(iv, (n + 1) % 4, g, free, files); Torn(s, b, k) == b || Spare(dev, Torn(s, b, k), n)
  {
    var b := Build(iv, (n + 1) % 4, g, free, files);
    var t := Torn(s, b, k);
    assert b[24..28] == [(n + 1) % 4, 0, 0, 0] && b[124..128] == [(n + 1) % 4, 0, 0, 0];
    if k >= 125 {
      forall i | 0 <= i < SIZE
        ensures t[i] == b[i]
      {
        assert i >= 125 ==> b[i] == b[124..128][i - 124] && s[i] == s[125..128][i - 125];
      }
      assert t == b;
    } else {
      assert b[28..32] == b[28..48][0..4];
      TornTail(dev, s, n, b, k, t);
    }
  }

  lemma TornTail(dev: Device, s: Bytes, n: nat, b: Bytes, k: nat, t: Bytes)
    requires Spare(dev, s, n) && |b| == SIZE && b[24..28] == [(n + 1) % 4, 0, 0, 0] && Number(b[28..32]) == 0
             && k < 125 && t == Torn(s, b, k)
    ensures Spare(dev, t, n)
  {
    forall i | 25 <= i < 28
      ensures t[i] == 0
    {
      assert b[i] == b[24..28][i - 24] && s[i] == s[25..28][i - 25];
    }
    assert t[25..28] == [0, 0, 0];
    assert t[125..128] == s[125..128];
    assert t[24] == if k <= 24 then s[24] else b[24..28][0];
    FourZeros(s[28..32]);
    FourZeros(b[28..32]);
    forall i | 28 <= i < 32
      ensures t[i] == 0
    {
      assert b[i] == b[28..32][i - 28] && s[i] == s[28..32][i - 28];
    }
    FourZeros(t[28..32]);
    if k <= 24 {
      assert t[32..36] == s[32..36];
    }
  }

  lemma FourZeros(f: Bytes)
    requires |f| == 4
    ensures Number(f) == 0 <==> f == [0, 0, 0, 0]
  {
    assert Number(f) == f[0] + 256 * Number(f[1..]);
    assert Number(f[1..]) == f[1] + 256 * Number(f[1..][1..]);
    assert Number(f[1..][1..]) == f[2] + 256 * Number(f[1..][1..][1..]);
    assert Number(f[1..][1..][1..]) == f[3] + 256 * Number(f[1..][1..][1..][1..]);
    assert f[1..][1..][1..][1..] == [];
  }

  // ---- loading ----

  // Slot contents of commit number n.
  ghost predicate Holds(dev: Device, s: Bytes, n: nat)
  {
    |s| == SIZE && SuperBlockValid(dev, s) && FsVersion(s) == 0 && s[24..28] == [n % 4, 0, 0, 0] == s[124..128]
  }

  lemma BuildHolds(dev: Device, iv: Bytes, n: nat, g: Bytes, free: Bytes, files: Bytes)
    requires |iv| == 16 && GeometryOk(dev, g) && |free| == 24 && |files| == 24
    ensures Holds(dev, Build(iv, n % 4, g, free, files), n)
  {
    BuildValid(dev, iv, n % 4, g, free, files);
    var s := Build(iv, n % 4, g, free, files);
    assert s[28..32] == s[28..48][0..4];
  }

  lemma SpareFlags(dev: Device, s: Bytes, n: nat)
    requires Spare(dev, s, n)
    ensures SuperBlockValid(dev, s) ==> n > 0 && Flags(s) == (n - 1) % 4
  {
    Version(s[24..28]);
    Version(s[124..128]);
    assert forall i :: 25 <= i < 28 ==> s[i] == s[25..28][i - 25];
    assert forall i :: 125 <= i < 128 ==> s[i] == s[125..128][i - 125];
  }

  // The slots after n completed commits.
  ghost predicate SlotsOk(dev: Device, slots: seq<Bytes>, n: nat)
  {
    && |slots| == 2 && Spare(dev, slots[(n + 1) % 2], n)
    && if n == 0 then slots[0] == Zeros(SIZE) else Holds(dev, slots[n % 2], n)
  }

  // Loading finds the last completed commit.
  lemma LoadLast(dev: Device, slots: seq<Bytes>, n: nat)
    requires SlotsOk(dev, slots, n) && dev.blockSize > 0
    ensures |slots[0]| == SIZE && |slots[1]| == SIZE
            && Chosen(dev, slots) == if n == 0 then None else Some(slots[n % 2])
  {
    SpareFlags(dev, slots[(n + 1) % 2], n);
    if n == 0 {
      ZerosInvalid(dev);
    } else {
      Version(slots[n % 2][24..28]);
      assert n % 2 == 0 || n % 2 == 1;
      assert Flags(slots[n % 2]) % 2 == n % 2;
    }
  }

  lemma ZerosInvalid(dev: Device)
    requires dev.blockSize > 0
    ensures !SuperBlockValid(dev, Zeros(SIZE)) && Spare(dev, Zeros(SIZE), 1) && Spare(dev, Zeros(SIZE), 0)
  {
    var z := Zeros(SIZE);
    FourZeros(z[28..32]);
    FourZeros(z[32..36]);
    assert z[28..32] == [0, 0, 0, 0] && z[32..36] == [0, 0, 0, 0] && z[25..28] == [0, 0, 0] && z[125..128] == [0, 0, 0];
  }

  // A completed write makes the other slot the spare one.
  lemma NextSlots(dev: Device, slots: seq<Bytes>, n: nat, b: Bytes)
    requires SlotsOk(dev, slots, n) && dev.blockSize > 0 && Holds(dev, b, n + 1)
    ensures SlotsOk(dev, slots[(n + 1) % 2 := b], n + 1)
  {
    var next := slots[(n + 1) % 2 := b];
    assert (n + 2) % 2 == n % 2;
    if n == 0 {
      ZerosInvalid(dev);
    } else {
      var s := slots[n % 2];
      assert s[25..28] == s[24..28][1..] && s[125..128] == s[124..128][1..];
      assert s[24] == s[24..28][0] && s[124] == s[124..128][0];
    }
  }

  // Any super block write, cut off after k bytes, leaves slots from which either the old or
  // the new commit is loaded.
  lemma TornSlots(dev: Device, slots: seq<Bytes>, n: nat, iv: Bytes, g: Bytes, free: Bytes, files: Bytes, k: nat)
    requires SlotsOk(dev, slots, n) && |iv| == 16 && GeometryOk(dev, g) && |free| == 24 && |files| == 24 && k <= SIZE
    ensures |slots[(n + 1) % 2]| == SIZE
    ensures var b := Build(iv, (n + 1) % 4, g, free, files);
            var i := (n + 1) % 2;
            var after := slots[i := Torn(slots[i], b, k)];
            (SlotsOk(dev, after, n)) || (after[i] == b && SlotsOk(dev, after, n + 1))
  {
    TornSpare(dev, slots[(n + 1) % 2], n, iv, g, free, files, k);
    BuildHolds(dev, iv, n + 1, g, free, files);
    NextSlots(dev, slots, n, Build(iv, (n + 1) % 4, g, free, files));
    assert (n + 1) % 2 != n % 2;
  }

  // ---- which slot is taken, in terms of its bytes ----

  lemma {:induction false} NumberSame(f: Bytes, g: Bytes)
    requires |f| == |g|
    ensures Number(f) == Number(g) <==> f == g
  {
    if f != [] {
      NumberSame(f[1..], g[1..]);
      assert f == [f[0]] + f[1..] && g == [g[0]] + g[1..];
    }
  }

  lemma FlagBytes(f: Bytes)
    requires |f| == 4
    ensures Number(f) % 4 == f[0] % 4 && Number(f) % 2 == f[0] % 2
    ensures Number(f) < 4 <==> f[0] < 4 && f[1..] == [0, 0, 0]
  {
    var r := Number(f[1..]);
    assert Number(f) == f[0] + 256 * r;
    NumberSame(f[1..], [0, 0, 0]);
    assert Number([0, 0, 0][1..][1..]) == 0 && Number([0, 0, 0][1..]) == 0 && Number([0, 0, 0]) == 0;
  }

  // Bytes 28 to 31 say that a newer version of the file system wrote the slot.
  predicate Newer(s: Bytes)
    requires |s| == SIZE
  {
    s[28..32] != [0, 0, 0, 0]
  }

  // A slot of this version that the device can be used with: no unknown flag, and the sizes in it are
  // ones the device allows.
  predicate Suits(dev: Device, s: Bytes)
    requires |s| == SIZE
  {
    && s[24] < 4 && s[25..28] == [0, 0, 0]
    && Number(s[32..36]) == dev.blockSize && Number(s[40..48]) <= dev.blockCount
    && dev.blockNumSize <= s[36] <= 8
    && dev.macSize <= s[37] <= 16 && (s[37] < 16 ==> dev.tamperDetecting)
  }

  // A completely written slot number i that belongs there.
  predicate Usable(dev: Device, s: Bytes, i: nat)
    requires |s| == SIZE
  {
    s[16..24] == MAGIC && s[24..28] == s[124..128] && s[24] % 2 == i && (Newer(s) || Suits(dev, s))
  }

  predicate TwoSlots(slots: seq<Bytes>)
  {
    |slots| == 2 && |slots[0]| == SIZE && |slots[1]| == SIZE
  }

  // The flags of s carry the version after that of o; versions count modulo 4.
  predicate Follows(s: Bytes, o: Bytes)
    requires |s| == SIZE && |o| == SIZE
  {
    var v: int := o[24];
    s[24] % 4 == (v + 1) % 4
  }

  // Slot i is usable, and if the other one is too, slot i is its successor.
  predicate Taken(dev: Device, slots: seq<Bytes>, i: nat)
    requires TwoSlots(slots) && i < 2
  {
    Usable(dev, slots[i], i) && (Usable(dev, slots[1 - i], 1 - i) ==> Follows(slots[i], slots[1 - i]))
  }

  lemma {:induction false} UsableBytes(dev: Device, s: Bytes, i: nat)
    requires |s| == SIZE && i < 2
    ensures Usable(dev, s, i) <==> SuperBlockValid(dev, s) && Flags(s) % 2 == i
    ensures Usable(dev, s, i) ==> s[24] % 2 == i
  {
    NumberSame(s[24..28], s[124..128]);
    FlagBytes(s[24..28]);
    FourZeros(s[28..32]);
    assert s[24..28][1..] == s[25..28] && s[24..28][0] == s[24];
  }

  lemma Deltas(a: nat, b: nat, x: nat, y: nat)
    requires a % 4 == x % 4 && b % 4 == y % 4
    ensures (a - b) % 4 == 1 <==> x % 4 == (y + 1) % 4
  {
    var p, q, v := a / 4, b / 4, y / 4;
    assert a == 4 * p + a % 4 && b == 4 * q + b % 4 && y == 4 * v + b % 4;
    assert (a - b) % 4 == (a % 4 - b % 4) % 4;
    assert (y + 1) % 4 == (b % 4 + 1) % 4;
  }

  // The slot that is chosen is the taken one; there is at most one, and there is one exactly if some
  // slot is usable.
  lemma {:induction false} ChosenExactly(dev: Device, slots: seq<Bytes>)
    requires TwoSlots(slots)
    ensures Chosen(dev, slots) == if Taken(dev, slots, 0) then Some(slots[0])
                                  else if Taken(dev, slots, 1) then Some(slots[1]) else None
    ensures !(Taken(dev, slots, 0) && Taken(dev, slots, 1))
    ensures Taken(dev, slots, 0) || Taken(dev, slots, 1) <==> Usable(dev, slots[0], 0) || Usable(dev, slots[1], 1)
  {
    hide Usable, SuperBlockValid, Flags, Follows;
    UsableBytes(dev, slots[0], 0);
    UsableBytes(dev, slots[1], 1);
    FollowsFlags(slots[1], slots[0]);
    FollowsOnce(slots[0], slots[1]);
  }

  lemma FollowsFlags(s: Bytes, o: Bytes)
    requires |s| == SIZE && |o| == SIZE
    ensures (Flags(s) - Flags(o)) % 4 == 1 <==> Follows(s, o)
  {
    FlagBytes(s[24..28]);
    FlagBytes(o[24..28]);
    Deltas(Flags(s), Flags(o), s[24], o[24]);
  }

  // Of an even and an odd version one follows the other, and only one.
  lemma FollowsOnce(s: Bytes, o: Bytes)
    requires |s| == SIZE && |o| == SIZE
    ensures s[24] % 2 != o[24] % 2 ==> (Follows(s, o) <==> !Follows(o, s))
  {
    NextVersion(s[24]);
    NextVersion(o[24]);
  }

  lemma NextVersion(v: nat)
    ensures (v + 1) % 4 == if v % 4 == 3 then 0 else v % 4 + 1
    ensures v % 2 == if v % 4 == 1 || v % 4 == 3 then 1 else 0
  {
    var q, r := v / 4, v % 4;
    assert v == 4 * q + r && v == 2 * (2 * q) + r;
  }

  // A slot of this version with an unknown flag, or with sizes the device does not allow, is never
  // chosen, and neither is one without the magic number, with different flag fields, or in the wrong
  // place.
  lemma {:induction false} NeverChosen(dev: Device, slots: seq<Bytes>, i: nat)
    requires TwoSlots(slots) && i < 2
    requires var s := slots[i];
             || s[16..24] != MAGIC || s[24..28] != s[124..128] || s[24] % 2 != i
             || (s[28..32] == [0, 0, 0, 0] &&
                 (|| s[24] >= 4 || s[25] != 0 || s[26] != 0 || s[27] != 0
                  || Number(s[32..36]) != dev.blockSize || Number(s[40..48]) > dev.blockCount
                  || s[36] < dev.blockNumSize || s[36] > 8
                  || s[37] < dev.macSize || s[37] > 16 || (s[37] != 16 && !dev.tamperDetecting)))
    ensures slots[i] != slots[1 - i] ==> Chosen(dev, slots) != Some(slots[i])
  {
    ChosenExactly(dev, slots);
    var s := slots[i];
    assert s[25..28] == [s[25], s[26], s[27]];
  }

  // ---- mounting ----

  // How a file system starts: not at all, empty, or with the roots and sizes of a super block.
  datatype Mount =
    | NoMount
    | EmptyMount(blockNumSize: nat, macSize: nat)
    | LoadedMount(blockNumSize: nat, macSize: nat, free: Bytes, files: Bytes, version: nat)

  // fs_init_from_super
  function InitFromSuper(dev: Device, super: Option<Bytes>, clear: bool): Mount
    requires super.Some? ==> |super.value| == SIZE
  {
    if super.Some? && FsVersion(super.value) > 0 then NoMount
    else if super.Some? && !clear then
      var s := super.value;
      LoadedMount(BlockNumSize(s), MacSize(s), FreeRoot(s), FilesRoot(s), Flags(s) % 4)
    else EmptyMount(dev.blockNumSize, dev.macSize)
  }

  // load_super_block
  method LoadSuperBlock(dev: Device, slots: seq<Bytes>, clear: bool) returns (r: Mount)
    requires TwoSlots(slots)
    ensures forall i :: 0 <= i < 2 && Taken(dev, slots, i) ==>
              var s := slots[i];
              r == if Newer(s) then NoMount
                   else if clear then EmptyMount(dev.blockNumSize, dev.macSize)
                   else LoadedMount(s[36], s[37], s[48..72], s[80..104], s[24])
    ensures !Usable(dev, slots[0], 0) && !Usable(dev, slots[1], 1) ==> r == EmptyMount(dev.blockNumSize, dev.macSize)
    ensures r == InitFromSuper(dev, Chosen(dev, slots), clear)
  {
    hide SuperBlockValid, Usable;
    var super: Option<Bytes> := None;
    for i := 0 to 2
      invariant super.Some? ==> |super.value| == SIZE
      invariant i == 0 ==> super == None
      invariant i == 1 ==> super == if UseNewSuper(dev, slots[0], 0, None) then Some(slots[0]) else None
      invariant i == 2 ==> super == Chosen(dev, slots)
    {
      if UseNewSuper(dev, slots[i], i, super) {
        super := Some(slots[i]);
      }
    }
    r := InitFromSuper(dev, super, clear);
    ChosenExactly(dev, slots);
    TakenMount(dev, slots, 0, clear);
    TakenMount(dev, slots, 1, clear);
  }

  lemma {:induction false} TakenMount(dev: Device, slots: seq<Bytes>, i: nat, clear: bool)
    requires TwoSlots(slots) && i < 2
    ensures Taken(dev, slots, i) ==>
              var s := slots[i];
              InitFromSuper(dev, Some(s), clear)
              == if Newer(s) then NoMount
                 else if clear then EmptyMount(dev.blockNumSize, dev.macSize)
                 else LoadedMount(s[36], s[37], s[48..72], s[80..104], s[24])
  {
    var s := slots[i];
    FourZeros(s[28..32]);
    FlagBytes(s[24..28]);
    assert s[24..28][0] == s[24];
  }

  // A newer slot that follows the other one is not skipped: the file system is not mounted, nor
  // cleared, however usable the older slot is.
  lemma {:induction false} NewerRefused(dev: Device, slots: seq<Bytes>, i: nat, clear: bool)
    requires TwoSlots(slots) && i < 2
    requires var s, o := slots[i], slots[1 - i];
             && s[16..24] == MAGIC && s[24..28] == s[124..128] && s[24] % 2 == i && s[28..32] != [0, 0, 0, 0]
             && (Follows(s, o) || o[16..24] != MAGIC || o[24..28] != o[124..128] || o[24] % 2 != 1 - i)
    ensures Chosen(dev, slots) == Some(slots[i]) && InitFromSuper(dev, Chosen(dev, slots), clear) == NoMount
  {
    ChosenExactly(dev, slots);
    TakenMount(dev, slots, i, clear);
  }

  // What a mount uses is within what the device allows.
  lemma {:induction false} MountSizes(dev: Device, slots: seq<Bytes>, clear: bool)
    requires TwoSlots(slots) && dev.blockNumSize <= 8 && dev.macSize <= 16 && (dev.macSize == 16 || dev.tamperDetecting)
    ensures var m := InitFromSuper(dev, Chosen(dev, slots), clear);
            m.NoMount? || (&& dev.blockNumSize <= m.blockNumSize <= 8 && dev.macSize <= m.macSize <= 16
                           && (m.macSize == 16 || dev.tamperDetecting))
  {
    ChosenExactly(dev, slots);
    TakenMount(dev, slots, 0, clear);
    TakenMount(dev, slots, 1, clear);
  }

  // After n commits a mount starts with the roots, the sizes and the version of commit n, so that the
  // next commit is number n + 1.
  lemma {:induction false} MountLast(dev: Device, slots: seq<Bytes>, n: nat, iv: Bytes, g: Bytes, free: Bytes,
                                     files: Bytes)
    requires SlotsOk(dev, slots, n) && n > 0 && |iv| == 16 && GeometryOk(dev, g) && |free| == 24 && |files| == 24
    requires slots[n % 2] == Build(iv, n % 4, g, free, files)
    ensures TwoSlots(slots)
            && InitFromSuper(dev, Chosen(dev, slots), false) == LoadedMount(g[8], g[9], free, files, n % 4)
  {
    LoadLast(dev, slots, n);
    var s := slots[n % 2];
    Version(s[24..28]);
    assert s[28..32] == s[28..48][0..4] && s[36] == s[28..48][8] && s[37] == s[28..48][9];
  }
}
