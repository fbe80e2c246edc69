/**
  The block layer of fs.c on plain values: balloc, bfree, bmap and itrunc as functions, and
  which inode owns which disk block. The inodes here are the effective ones: the in-memory
  copy of the inode that an operation holds, the disk's copy of every other.
 */
module FsSpec {
  import opened Blocks
  import opened FsLayout

  const SLOTS: nat := 141

  /** A pointer of inode k: j = 0..11 direct, 12 to the indirect block, 13 + e its e-th entry. */
  datatype Slot = Slot(k: nat, j: nat)

  /** `logged` are the blocks that log_write got, `halted` says that the kernel has panicked. */
  datatype Fs = Fs(sb: Super, disk: Disk, inodes: seq<Dinode>, logged: set<nat>, halted: bool) {
    predicate Shape() {
      sb.Laid(disk) && |inodes| == sb.ninodes
    }

    predicate Has(k: nat, j: nat) {
      k < |inodes| && j < SLOTS
    }
  }

  /** Entry e of the indirect block at x. */
  function EntryOf(disk: Disk, x: Word, e: nat): Word
    requires e < NINDIRECT
  {
    if x == 0 || x >= |disk| then 0 else LoadWord(disk[x], e)
  }

  /** The block that a slot points to, 0 for none. */
  function Addr(fs: Fs, k: nat, j: nat): Word
    requires fs.Has(k, j)
  {
    if j <= NDIRECT then fs.inodes[k].addrs[j]
    else EntryOf(fs.disk, fs.inodes[k].addrs[NDIRECT], j - NDIRECT - 1)
  }

  /** The slot of a file's bn-th block. */
  function SlotOf(bn: nat): nat {
    if bn < NDIRECT then bn else bn + 1
  }

  /** What a file's bn-th block holds; a hole reads as zeros. */
  function BlockOf(fs: Fs, k: nat, bn: nat): Block
    requires k < |fs.inodes| && bn < MAXFILE
  {
    var a := Addr(fs, k, SlotOf(bn));
    if a == 0 || a >= |fs.disk| then ZERO else fs.disk[a]
  }

  // ---------- ownership ----------

  /** itrunc of inode kd has freed the first m indirect entries but still holds the pointers. */
  predicate Dead(k: nat, j: nat, kd: nat, m: nat) {
    k == kd && NDIRECT < j <= NDIRECT + m
  }

  ghost predicate PointerOwned(fs: Fs, own: map<nat, Slot>, k: nat, j: nat)
    requires fs.Has(k, j)
  {
    var a: nat := Addr(fs, k, j);
    a == 0 || (a in own && own[a] == Slot(k, j))
  }

  ghost predicate PointersOwned(fs: Fs, own: map<nat, Slot>, kd: nat, m: nat) {
    forall k: nat, j: nat :: fs.Has(k, j) && !Dead(k, j, kd, m) ==> PointerOwned(fs, own, k, j)
  }

  ghost predicate OwnerPoints(fs: Fs, s: Slot, a: nat, kd: nat, m: nat) {
    fs.sb.dataStart <= a < fs.sb.size && fs.Has(s.k, s.j) && !Dead(s.k, s.j, kd, m) && Addr(fs, s.k, s.j) == a
  }

  ghost predicate OwnersPoint(fs: Fs, own: map<nat, Slot>, kd: nat, m: nat) {
    forall a: nat :: a in own ==> OwnerPoints(fs, own[a], a, kd, m)
  }

  ghost predicate BitsMatch(fs: Fs, own: map<nat, Slot>)
    requires fs.Shape()
  {
    forall b: nat :: b < fs.sb.size ==> (Bit(fs.sb, fs.disk, b) <==> b < fs.sb.dataStart || b in own)
  }

  /**
    The blocks in use are the metadata and, disjointly, those that some slot points to; `own`
    names the one slot of each.
   */
  ghost predicate Owned(fs: Fs, own: map<nat, Slot>, kd: nat, m: nat) {
    fs.Shape() && PointersOwned(fs, own, kd, m) && OwnersPoint(fs, own, kd, m) && BitsMatch(fs, own)
  }

  lemma PointerIsOwned(fs: Fs, own: map<nat, Slot>, kd: nat, m: nat, k: nat, j: nat)
    requires Owned(fs, own, kd, m) && fs.Has(k, j) && !Dead(k, j, kd, m)
    ensures Addr(fs, k, j) != 0 ==>
              Addr(fs, k, j) in own && own[Addr(fs, k, j)] == Slot(k, j)
              && fs.sb.dataStart <= Addr(fs, k, j) < fs.sb.size
  {
    assert PointerOwned(fs, own, k, j);
  }

  lemma OwnerIsData(fs: Fs, own: map<nat, Slot>, kd: nat, m: nat, a: nat)
    requires Owned(fs, own, kd, m) && a in own
    ensures OwnerPoints(fs, own[a], a, kd, m)
  {
  }

  /** Two slots never share a block. */
  lemma NoSharing(fs: Fs, own: map<nat, Slot>, kd: nat, m: nat, k: nat, j: nat, k': nat, j': nat)
    requires Owned(fs, own, kd, m) && fs.Has(k, j) && fs.Has(k', j') && !Dead(k, j, kd, m) && !Dead(k', j', kd, m)
    ensures Addr(fs, k, j) == Addr(fs, k', j') != 0 ==> k == k' && j == j'
  {
    PointerIsOwned(fs, own, kd, m, k, j);
    PointerIsOwned(fs, own, kd, m, k', j');
  }

  // ---------- the primitive changes ----------

  /** A change to the pointers of one slot; the entries below a new indirect block are all 0. */
  ghost predicate OneSlot(fs: Fs, fs': Fs, k: nat, j: nat, b: Word) {
    && fs'.sb == fs.sb && |fs'.inodes| == |fs.inodes|
    && forall k2: nat, j2: nat :: fs.Has(k2, j2) ==>
       Addr(fs', k2, j2) == if k2 == k && j2 == j then b else Addr(fs, k2, j2)
  }

  ghost predicate BitPut(fs: Fs, fs': Fs, b: nat, on: bool)
    requires fs.Shape() && fs'.Shape() && fs'.sb == fs.sb
  {
    forall c: nat :: c < fs.sb.size ==> Bit(fs.sb, fs'.disk, c) == if c == b then on else Bit(fs.sb, fs.disk, c)
  }

  /** Every data block but x and y keeps its contents. */
  ghost predicate DataKept(fs: Fs, fs': Fs, x: nat, y: nat) {
    && |fs'.disk| == |fs.disk|
    && forall a: nat :: fs.sb.dataStart <= a < |fs.disk| && a != x && a != y ==> fs'.disk[a] == fs.disk[a]
  }

  lemma GrowPointers(fs: Fs, fs': Fs, own: map<nat, Slot>, k: nat, j: nat, b: Word)
    requires Owned(fs, own, 0, 0) && fs.Has(k, j) && OneSlot(fs, fs', k, j, b) && b !in own
    ensures PointersOwned(fs', own[b as nat := Slot(k, j)], 0, 0)
  {
    forall k2: nat, j2: nat | fs'.Has(k2, j2) && !Dead(k2, j2, 0, 0)
      ensures PointerOwned(fs', own[b as nat := Slot(k, j)], k2, j2)
    {
      PointerIsOwned(fs, own, 0, 0, k2, j2);
    }
  }

  lemma GrowOwners(fs: Fs, fs': Fs, own: map<nat, Slot>, k: nat, j: nat, b: Word)
    requires Owned(fs, own, 0, 0) && fs.Has(k, j) && OneSlot(fs, fs', k, j, b)
    requires Addr(fs, k, j) == 0 && fs.sb.dataStart <= b < fs.sb.size
    ensures OwnersPoint(fs', own[b as nat := Slot(k, j)], 0, 0)
  {
    var own' := own[b as nat := Slot(k, j)];
    forall a: nat | a in own'
      ensures OwnerPoints(fs', own'[a], a, 0, 0)
    {
      if a != b {
        OwnerIsData(fs, own, 0, 0, a);
      }
    }
  }

  lemma OwnedGrows(fs: Fs, fs': Fs, own: map<nat, Slot>, k: nat, j: nat, b: Word)
    requires Owned(fs, own, 0, 0) && fs.Has(k, j) && Addr(fs, k, j) == 0
    requires fs'.Shape() && OneSlot(fs, fs', k, j, b) && BitPut(fs, fs', b, true)
    requires fs.sb.dataStart <= b < fs.sb.size && !Bit(fs.sb, fs.disk, b)
    ensures Owned(fs', own[b as nat := Slot(k, j)], 0, 0)
  {
    GrowPointers(fs, fs', own, k, j, b);
    GrowOwners(fs, fs', own, k, j, b);
  }

  /** A fresh zeroed block in place of a hole, and what a file holds stays the same. */
  lemma GrowBlock(fs: Fs, fs': Fs, own: map<nat, Slot>, k: nat, j: nat, b: Word, x: nat, k2: nat, bn: nat)
    requires Owned(fs, own, 0, 0) && fs.Has(k, j) && Addr(fs, k, j) == 0
    requires OneSlot(fs, fs', k, j, b) && DataKept(fs, fs', b, x) && b < |fs.disk| && b !in own
    requires j != NDIRECT ==> fs'.disk[b] == ZERO
    requires x in own ==> own[x].j == NDIRECT
    requires k2 < |fs.inodes| && bn < MAXFILE
    ensures BlockOf(fs', k2, bn) == BlockOf(fs, k2, bn)
  {
    PointerIsOwned(fs, own, 0, 0, k2, SlotOf(bn));
  }

  // ---------- balloc ----------

  /** The first block from b on that is not marked in use, or the size of the file system. */
  function FreeFrom(fs: Fs, b: nat): (r: nat)
    requires fs.Shape() && b <= fs.sb.size
    ensures b <= r <= fs.sb.size && (r < fs.sb.size ==> !Bit(fs.sb, fs.disk, r))
    ensures forall c: nat :: b <= c < r ==> Bit(fs.sb, fs.disk, c)
    decreases fs.sb.size - b
  {
    if b < fs.sb.size && Bit(fs.sb, fs.disk, b) then FreeFrom(fs, b + 1) else b
  }

  /** balloc's effect: the bit is set and the block zeroed. */
  function Taken(fs: Fs, b: nat): (r: Fs)
    requires fs.Shape() && b < fs.sb.size
    ensures r.Shape() && r.sb == fs.sb && |r.inodes| == |fs.inodes|
  {
    fs.(disk := WithBit(fs.sb, fs.disk, b, true)[b := ZERO], logged := fs.logged + {fs.sb.BBlock(b)} + {b})
  }

  /** An unmarked block is behind the metadata and owned by nobody. */
  lemma FreeIsData(fs: Fs, own: map<nat, Slot>, kd: nat, m: nat, b: nat)
    requires Owned(fs, own, kd, m) && b < fs.sb.size && !Bit(fs.sb, fs.disk, b)
    ensures 0 < fs.sb.dataStart <= b && b !in own
  {
  }

  lemma TakenDisk(fs: Fs, b: nat, a: nat)
    requires fs.Shape() && fs.sb.dataStart <= b < fs.sb.size && a < fs.sb.size
    ensures Taken(fs, b).disk[b] == ZERO
    ensures a != b && a != fs.sb.BBlock(b) ==> Taken(fs, b).disk[a] == fs.disk[a]
  {
  }

  lemma BitsElsewhere(sb: Super, d: Disk, d': Disk, c: nat)
    requires sb.Laid(d) && |d'| == |d| && c < sb.size
    requires forall a: nat :: a < sb.dataStart ==> d'[a] == d[a]
    ensures Bit(sb, d', c) == Bit(sb, d, c)
  {
    BBlockIsBitmap(sb, d, c);
  }

  lemma TakenBits(fs: Fs, b: nat)
    requires fs.Shape() && fs.sb.dataStart <= b < fs.sb.size
    ensures BitPut(fs, Taken(fs, b), b, true)
  {
    var d := WithBit(fs.sb, fs.disk, b, true);
    var fs' := Taken(fs, b);
    forall c: nat | c < fs.sb.size
      ensures Bit(fs.sb, fs'.disk, c) == if c == b then true else Bit(fs.sb, fs.disk, c)
    {
      WithBitAt(fs.sb, fs.disk, b, true, c);
      BitsElsewhere(fs.sb, d, fs'.disk, c);
    }
  }

  lemma TakenData(fs: Fs, b: nat, x: nat)
    requires fs.Shape() && fs.sb.dataStart <= b < fs.sb.size
    ensures DataKept(fs, Taken(fs, b), b, x)
  {
    BBlockIsBitmap(fs.sb, fs.disk, b);
  }

  lemma TakenAddr(fs: Fs, own: map<nat, Slot>, kd: nat, m: nat, b: nat, k: nat, j: nat)
    requires Owned(fs, own, kd, m) && fs.Has(k, j) && b < fs.sb.size && !Bit(fs.sb, fs.disk, b)
    ensures Addr(Taken(fs, b), k, j) == Addr(fs, k, j)
  {
    FreeIsData(fs, own, kd, m, b);
    BBlockIsBitmap(fs.sb, fs.disk, b);
    PointerIsOwned(fs, own, kd, m, k, NDIRECT);
    var x := fs.inodes[k].addrs[NDIRECT];
    assert x == Addr(fs, k, NDIRECT);
    if x != 0 {
      TakenDisk(fs, b, x);
    }
  }

  // ---------- storing a pointer ----------

  function SetAddr(fs: Fs, k: nat, j: nat, b: Word): (r: Fs)
    requires fs.Shape() && k < |fs.inodes| && j <= NDIRECT
    ensures r.Shape() && r.sb == fs.sb && |r.inodes| == |fs.inodes|
  {
    var d := fs.inodes[k];
    fs.(inodes := fs.inodes[k := d.(addrs := d.addrs[j := b])])
  }

  function SetEntry(fs: Fs, x: Word, e: nat, b: Word): (r: Fs)
    requires fs.Shape() && fs.sb.dataStart <= x < fs.sb.size && e < NINDIRECT
    ensures r.Shape() && r.sb == fs.sb && |r.inodes| == |fs.inodes|
  {
    fs.(disk := fs.disk[x := StoreWord(fs.disk[x], e, b)], logged := fs.logged + {x as nat})
  }

  lemma SetAddrAt(fs: Fs, k: nat, j: nat, b: Word, k2: nat, j2: nat)
    requires fs.Shape() && fs.Has(k, j) && fs.Has(k2, j2) && j <= NDIRECT
    ensures Addr(SetAddr(fs, k, j, b), k2, j2)
         == if k2 != k then Addr(fs, k2, j2)
            else if j2 == j then b
            else if j2 > NDIRECT && j == NDIRECT then EntryOf(fs.disk, b, j2 - NDIRECT - 1)
            else Addr(fs, k2, j2)
  {
  }

  lemma SetEntryAt(fs: Fs, x: Word, e: nat, b: Word, k2: nat, j2: nat)
    requires fs.Shape() && fs.Has(k2, j2) && fs.sb.dataStart <= x < fs.sb.size && e < NINDIRECT
    ensures Addr(SetEntry(fs, x, e, b), k2, j2)
         == if j2 == NDIRECT + 1 + e && fs.inodes[k2].addrs[NDIRECT] == x then b else Addr(fs, k2, j2)
  {
    if j2 > NDIRECT {
      LoadStore(fs.disk[x], e, b, j2 - NDIRECT - 1);
    }
  }

  // ---------- bmap ----------

  function Halt(fs: Fs): (r: Fs)
    ensures r.halted && r.Shape() == fs.Shape()
  {
    fs.(halted := true)
  }

  /** ip->addrs[j] = balloc(), where b is the block that balloc finds */
  function GiveAddr(fs: Fs, k: nat, j: nat, b: nat): (r: Fs)
    requires fs.Shape() && k < |fs.inodes| && j <= NDIRECT && b < fs.sb.size
    ensures r.Shape() && r.sb == fs.sb && |r.inodes| == |fs.inodes|
  {
    SetAddr(Taken(fs, b), k, j, b)
  }

  lemma GiveAddrAt(fs: Fs, own: map<nat, Slot>, k: nat, j: nat, b: nat, k2: nat, j2: nat)
    requires Owned(fs, own, 0, 0) && fs.Has(k, j) && j <= NDIRECT && Addr(fs, k, j) == 0 && fs.Has(k2, j2)
    requires b < fs.sb.size && !Bit(fs.sb, fs.disk, b)
    ensures Addr(GiveAddr(fs, k, j, b), k2, j2) == if k2 == k && j2 == j then b else Addr(fs, k2, j2)
  {
    FreeIsData(fs, own, 0, 0, b);
    SetAddrAt(Taken(fs, b), k, j, b, k2, j2);
    TakenAddr(fs, own, 0, 0, b, k2, j2);
    if j2 > NDIRECT {
      ZeroLoads(4 * (j2 - NDIRECT - 1), 4);
      TakenDisk(fs, b, b);
    }
  }

  /** What allocating a block for slot (k, j) does. */
  ghost predicate Allocated(fs: Fs, fs': Fs, own: map<nat, Slot>, k: nat, j: nat, b: Word, x: nat) {
    && b as nat !in own && Owned(fs', own[b as nat := Slot(k, j)], 0, 0)
    && OneSlot(fs, fs', k, j, b) && DataKept(fs, fs', b, x)
    && (j != NDIRECT ==> b < |fs'.disk| && fs'.disk[b] == ZERO)
    && (x in own ==> own[x].j == NDIRECT)
  }

  lemma GiveAddrAllocates(fs: Fs, own: map<nat, Slot>, k: nat, j: nat, b: nat)
    requires Owned(fs, own, 0, 0) && fs.Has(k, j) && j <= NDIRECT && Addr(fs, k, j) == 0
    requires b < fs.sb.size && !Bit(fs.sb, fs.disk, b)
    ensures Allocated(fs, GiveAddr(fs, k, j, b), own, k, j, b, b)
  {
    var fs' := GiveAddr(fs, k, j, b);
    FreeIsData(fs, own, 0, 0, b);
    forall k2: nat, j2: nat | fs.Has(k2, j2)
      ensures Addr(fs', k2, j2) == if k2 == k && j2 == j then b else Addr(fs, k2, j2)
    {
      GiveAddrAt(fs, own, k, j, b, k2, j2);
    }
    assert OneSlot(fs, fs', k, j, b);
    TakenBits(fs, b);
    TakenData(fs, b, b);
    TakenDisk(fs, b, b);
    OwnedGrows(fs, fs', own, k, j, b);
  }

  /** a[e] = balloc() */
  function GiveEntry(fs: Fs, x: Word, e: nat, b: nat): (r: Fs)
    requires fs.Shape() && fs.sb.dataStart <= x < fs.sb.size && e < NINDIRECT && b < fs.sb.size
    ensures r.Shape() && r.sb == fs.sb && |r.inodes| == |fs.inodes|
  {
    SetEntry(Taken(fs, b), x, e, b)
  }

  lemma GiveEntryAt(fs: Fs, own: map<nat, Slot>, k: nat, e: nat, b: nat, k2: nat, j2: nat)
    requires Owned(fs, own, 0, 0) && k < |fs.inodes| && e < NINDIRECT && fs.Has(k2, j2)
    requires b < fs.sb.size && !Bit(fs.sb, fs.disk, b)
    requires fs.sb.dataStart <= fs.inodes[k].addrs[NDIRECT] < fs.sb.size
    ensures Addr(GiveEntry(fs, fs.inodes[k].addrs[NDIRECT], e, b), k2, j2)
         == if k2 == k && j2 == NDIRECT + 1 + e then b else Addr(fs, k2, j2)
  {
    var x := fs.inodes[k].addrs[NDIRECT];
    assert x == Addr(fs, k, NDIRECT) && fs.inodes[k2].addrs[NDIRECT] == Addr(fs, k2, NDIRECT);
    SetEntryAt(Taken(fs, b), x, e, b, k2, j2);
    TakenAddr(fs, own, 0, 0, b, k2, j2);
    NoSharing(fs, own, 0, 0, k, NDIRECT, k2, NDIRECT);
  }

  lemma GiveEntryBits(fs: Fs, x: Word, e: nat, b: nat)
    requires fs.Shape() && fs.sb.dataStart <= x < fs.sb.size && e < NINDIRECT && fs.sb.dataStart <= b < fs.sb.size
    ensures BitPut(fs, GiveEntry(fs, x, e, b), b, true)
  {
    var fs1 := Taken(fs, b);
    var fs' := GiveEntry(fs, x, e, b);
    TakenBits(fs, b);
    forall c: nat | c < fs.sb.size
      ensures Bit(fs.sb, fs'.disk, c) == if c == b then true else Bit(fs.sb, fs.disk, c)
    {
      BitsElsewhere(fs.sb, fs1.disk, fs'.disk, c);
    }
  }

  lemma GiveEntryOneSlot(fs: Fs, own: map<nat, Slot>, k: nat, e: nat, b: nat)
    requires Owned(fs, own, 0, 0) && k < |fs.inodes| && e < NINDIRECT
    requires b < fs.sb.size && !Bit(fs.sb, fs.disk, b)
    requires fs.sb.dataStart <= fs.inodes[k].addrs[NDIRECT] < fs.sb.size
    ensures OneSlot(fs, GiveEntry(fs, fs.inodes[k].addrs[NDIRECT], e, b), k, NDIRECT + 1 + e, b)
  {
    forall k2: nat, j2: nat | fs.Has(k2, j2)
      ensures Addr(GiveEntry(fs, fs.inodes[k].addrs[NDIRECT], e, b), k2, j2)
           == if k2 == k && j2 == NDIRECT + 1 + e then b else Addr(fs, k2, j2)
    {
      GiveEntryAt(fs, own, k, e, b, k2, j2);
    }
  }

  lemma GiveEntryAllocates(fs: Fs, own: map<nat, Slot>, k: nat, e: nat, b: nat)
    requires Owned(fs, own, 0, 0) && k < |fs.inodes| && e < NINDIRECT && Addr(fs, k, NDIRECT + 1 + e) == 0
    requires b < fs.sb.size && !Bit(fs.sb, fs.disk, b)
    requires fs.sb.dataStart <= fs.inodes[k].addrs[NDIRECT] < fs.sb.size
    ensures var x := fs.inodes[k].addrs[NDIRECT];
            Allocated(fs, GiveEntry(fs, x, e, b), own, k, NDIRECT + 1 + e, b, x)
  {
    var x := fs.inodes[k].addrs[NDIRECT];
    var fs' := GiveEntry(fs, x, e, b);
    FreeIsData(fs, own, 0, 0, b);
    GiveEntryOneSlot(fs, own, k, e, b);
    GiveEntryData(fs, own, k, x, e, b);
    GiveEntryBits(fs, x, e, b);
    OwnedGrows(fs, fs', own, k, NDIRECT + 1 + e, b);
  }

  /** Only the new block and the indirect block change, and they are not the same. */
  lemma GiveEntryData(fs: Fs, own: map<nat, Slot>, k: nat, x: Word, e: nat, b: nat)
    requires Owned(fs, own, 0, 0) && k < |fs.inodes| && e < NINDIRECT && x == fs.inodes[k].addrs[NDIRECT]
    requires fs.sb.dataStart <= x < fs.sb.size && fs.sb.dataStart <= b < fs.sb.size && b !in own
    ensures x in own && own[x].j == NDIRECT && DataKept(fs, GiveEntry(fs, x, e, b), b, x)
    ensures GiveEntry(fs, x, e, b).disk[b] == ZERO
  {
    assert x == Addr(fs, k, NDIRECT);
    PointerIsOwned(fs, own, 0, 0, k, NDIRECT);
    TakenData(fs, b, b);
    TakenDisk(fs, b, b);
  }

  function AllocAddr(fs: Fs, k: nat, j: nat): (r: Fs)
    requires fs.Shape() && k < |fs.inodes| && j <= NDIRECT
    ensures r.Shape() && r.sb == fs.sb && |r.inodes| == |fs.inodes|
  {
    if fs.inodes[k].addrs[j] != 0 then fs
    else
      var b := FreeFrom(fs, 0);
      if b == fs.sb.size then Halt(fs) else GiveAddr(fs, k, j, b)
  }

  /** An indirect block outside the data region is not possible, and halts the model. */
  function AllocEntry(fs: Fs, k: nat, e: nat): (r: Fs)
    requires fs.Shape() && k < |fs.inodes| && e < NINDIRECT
    ensures r.Shape() && r.sb == fs.sb && |r.inodes| == |fs.inodes|
  {
    var x := fs.inodes[k].addrs[NDIRECT];
    if !(fs.sb.dataStart <= x < fs.sb.size) then Halt(fs)
    else if LoadWord(fs.disk[x], e) != 0 then fs
    else
      var b := FreeFrom(fs, 0);
      if b == fs.sb.size then Halt(fs) else GiveEntry(fs, x, e, b)
  }

  function Bmap(fs: Fs, k: nat, bn: nat): (r: Fs)
    requires fs.Shape() && k < |fs.inodes| && bn < MAXFILE
    ensures r.Shape() && r.sb == fs.sb && |r.inodes| == |fs.inodes|
  {
    if bn < NDIRECT then AllocAddr(fs, k, bn)
    else
      var fs1 := AllocAddr(fs, k, NDIRECT);
      if fs1.halted then fs1 else AllocEntry(fs1, k, bn - NDIRECT)
  }

  /** A change that no reader of a file can see, made on behalf of inode k. */
  ghost predicate Quiet(fs: Fs, fs': Fs, k: nat) {
    && fs'.sb == fs.sb && |fs'.disk| == |fs.disk| && SameInodes(fs, fs', k)
    && BlocksKept(fs, fs') && InodeBlocksKept(fs, fs')
  }

  ghost predicate SameInodes(fs: Fs, fs': Fs, k: nat) {
    && |fs'.inodes| == |fs.inodes|
    && forall i: nat :: i < |fs.inodes| ==>
         fs'.inodes[i] == if i == k then fs.inodes[i].(addrs := fs'.inodes[i].addrs) else fs.inodes[i]
  }

  ghost predicate BlocksKept(fs: Fs, fs': Fs) {
    && |fs'.inodes| == |fs.inodes|
    && forall i: nat, bn: nat :: i < |fs.inodes| && bn < MAXFILE ==> BlockOf(fs', i, bn) == BlockOf(fs, i, bn)
  }

  ghost predicate InodeBlocksKept(fs: Fs, fs': Fs) {
    && |fs'.disk| == |fs.disk|
    && forall a: nat :: a < |fs.disk| && a < fs.sb.bmapstart ==> fs'.disk[a] == fs.disk[a]
  }

  lemma QuietTwice(fs: Fs, fs1: Fs, fs2: Fs, k: nat)
    requires Quiet(fs, fs1, k) && Quiet(fs1, fs2, k)
    ensures Quiet(fs, fs2, k)
  {
  }

  /** Only holes of inode k are filled. */
  ghost predicate Filled(fs: Fs, fs': Fs, k: nat) {
    && |fs'.inodes| == |fs.inodes|
    && forall k2: nat, j2: nat :: fs.Has(k2, j2) && (k2 != k || Addr(fs, k2, j2) != 0) ==>
       Addr(fs', k2, j2) == Addr(fs, k2, j2)
  }

  lemma AllocatedIsQuiet(fs: Fs, fs': Fs, own: map<nat, Slot>, k: nat, j: nat, b: Word, x: nat)
    requires Owned(fs, own, 0, 0) && fs.Has(k, j) && Addr(fs, k, j) == 0
    requires Allocated(fs, fs', own, k, j, b, x) && b < |fs.disk|
    ensures BlocksKept(fs, fs') && Filled(fs, fs', k)
  {
    forall i: nat, bn: nat | i < |fs.inodes| && bn < MAXFILE
      ensures BlockOf(fs', i, bn) == BlockOf(fs, i, bn)
    {
      GrowBlock(fs, fs', own, k, j, b, x, i, bn);
    }
  }

  /** The step of bmap that fills slot (k, j) if it is a hole. */
  ghost predicate Mapped(fs: Fs, fs': Fs, own: map<nat, Slot>, own': map<nat, Slot>, k: nat, j: nat) {
    && Owned(fs', own', 0, 0) && Quiet(fs, fs', k) && Filled(fs, fs', k) && !fs'.halted
    && (forall a: nat :: a in own ==> a in own' && own'[a] == own[a])
    && fs'.Has(k, j) && Addr(fs', k, j) != 0
  }

  lemma GiveKeepsInodeBlocks(fs: Fs, k: nat, j: nat, x: Word, e: nat, b: nat)
    requires fs.Shape() && k < |fs.inodes| && fs.sb.dataStart <= b < fs.sb.size
    ensures j <= NDIRECT ==> InodeBlocksKept(fs, GiveAddr(fs, k, j, b)) && SameInodes(fs, GiveAddr(fs, k, j, b), k)
    ensures e < NINDIRECT && fs.sb.dataStart <= x < fs.sb.size ==>
              InodeBlocksKept(fs, GiveEntry(fs, x, e, b)) && SameInodes(fs, GiveEntry(fs, x, e, b), k)
  {
    BBlockIsBitmap(fs.sb, fs.disk, b);
  }

  lemma AllocatedMaps(fs: Fs, fs': Fs, own: map<nat, Slot>, own': map<nat, Slot>, k: nat, j: nat, b: nat, x: nat)
    requires Owned(fs, own, 0, 0) && fs.Has(k, j) && Addr(fs, k, j) == 0 && 0 < b < |fs.disk|
    requires Allocated(fs, fs', own, k, j, b, x) && InodeBlocksKept(fs, fs') && SameInodes(fs, fs', k) && !fs'.halted
    requires own' == own[b := Slot(k, j)]
    ensures Mapped(fs, fs', own, own', k, j)
  {
    AllocatedIsQuiet(fs, fs', own, k, j, b, x);
  }

  lemma GiveAddrMaps(fs: Fs, own: map<nat, Slot>, k: nat, j: nat, b: nat)
    requires Owned(fs, own, 0, 0) && fs.Has(k, j) && j <= NDIRECT && Addr(fs, k, j) == 0 && !fs.halted
    requires b < fs.sb.size && !Bit(fs.sb, fs.disk, b)
    ensures Mapped(fs, GiveAddr(fs, k, j, b), own, own[b := Slot(k, j)], k, j)
  {
    FreeIsData(fs, own, 0, 0, b);
    GiveAddrAllocates(fs, own, k, j, b);
    GiveKeepsInodeBlocks(fs, k, j, 0, 0, b);
    AllocatedMaps(fs, GiveAddr(fs, k, j, b), own, own[b := Slot(k, j)], k, j, b, b);
  }

  lemma GiveEntryMaps(fs: Fs, own: map<nat, Slot>, k: nat, e: nat, b: nat, x: Word)
    requires Owned(fs, own, 0, 0) && k < |fs.inodes| && e < NINDIRECT && Addr(fs, k, NDIRECT + 1 + e) == 0 && !fs.halted
    requires b < fs.sb.size && !Bit(fs.sb, fs.disk, b)
    requires x == fs.inodes[k].addrs[NDIRECT] && fs.sb.dataStart <= x < fs.sb.size
    ensures Mapped(fs, GiveEntry(fs, x, e, b), own, own[b := Slot(k, NDIRECT + 1 + e)], k, NDIRECT + 1 + e)
  {
    var fs', j := GiveEntry(fs, x, e, b), NDIRECT + 1 + e;
    FreeIsData(fs, own, 0, 0, b);
    GiveEntryAllocates(fs, own, k, e, b);
    GiveKeepsInodeBlocks(fs, k, j, x, e, b);
    AllocatedMaps(fs, fs', own, own[b := Slot(k, j)], k, j, b, x);
  }

  lemma MappedAlready(fs: Fs, own: map<nat, Slot>, k: nat, j: nat)
    requires Owned(fs, own, 0, 0) && fs.Has(k, j) && Addr(fs, k, j) != 0 && !fs.halted
    ensures Mapped(fs, fs, own, own, k, j)
  {
  }

  lemma MapAddr(fs: Fs, own: map<nat, Slot>, k: nat, j: nat) returns (own': map<nat, Slot>)
    requires Owned(fs, own, 0, 0) && fs.Has(k, j) && j <= NDIRECT && !fs.halted
    ensures !AllocAddr(fs, k, j).halted ==> Mapped(fs, AllocAddr(fs, k, j), own, own', k, j)
    ensures AllocAddr(fs, k, j).halted ==> AllMarked(AllocAddr(fs, k, j))
  {
    own' := own;
    if fs.inodes[k].addrs[j] != 0 {
      MappedAlready(fs, own, k, j);
    } else {
      var b := FreeFrom(fs, 0);
      if b < fs.sb.size {
        GiveAddrMaps(fs, own, k, j, b);
        own' := own[b := Slot(k, j)];
      }
    }
  }

  ghost predicate AllMarked(fs: Fs) {
    fs.Shape() && forall c: nat :: c < fs.sb.size ==> Bit(fs.sb, fs.disk, c)
  }

  lemma MapEntry(fs: Fs, own: map<nat, Slot>, k: nat, e: nat) returns (own': map<nat, Slot>)
    requires Owned(fs, own, 0, 0) && k < |fs.inodes| && e < NINDIRECT && !fs.halted && Addr(fs, k, NDIRECT) != 0
    ensures !AllocEntry(fs, k, e).halted ==> Mapped(fs, AllocEntry(fs, k, e), own, own', k, NDIRECT + 1 + e)
    ensures AllocEntry(fs, k, e).halted ==> AllMarked(AllocEntry(fs, k, e))
  {
    own' := own;
    PointerIsOwned(fs, own, 0, 0, k, NDIRECT);
    var x := fs.inodes[k].addrs[NDIRECT];
    assert x == Addr(fs, k, NDIRECT);
    assert Addr(fs, k, NDIRECT + 1 + e) == LoadWord(fs.disk[x], e);
    if LoadWord(fs.disk[x], e) != 0 {
      MappedAlready(fs, own, k, NDIRECT + 1 + e);
    } else {
      var b := FreeFrom(fs, 0);
      if b < fs.sb.size {
        GiveEntryMaps(fs, own, k, e, b, x);
        own' := own[b := Slot(k, NDIRECT + 1 + e)];
      }
    }
  }

  lemma MappedTwice(fs: Fs, fs1: Fs, fs2: Fs, own: map<nat, Slot>, own1: map<nat, Slot>, own2: map<nat, Slot>,
                    k: nat, i: nat, j: nat)
    requires Mapped(fs, fs1, own, own1, k, i) && Mapped(fs1, fs2, own1, own2, k, j)
    ensures Mapped(fs, fs2, own, own2, k, j)
  {
    QuietTwice(fs, fs1, fs2, k);
  }

  /**
    bmap maps block bn of file k to a block that no other slot points to; what any file
    holds stays the same, and it panics only when no block is free.
   */
  lemma BmapMaps(fs: Fs, own: map<nat, Slot>, k: nat, bn: nat) returns (own': map<nat, Slot>)
    requires Owned(fs, own, 0, 0) && k < |fs.inodes| && bn < MAXFILE && !fs.halted
    ensures !Bmap(fs, k, bn).halted ==> Mapped(fs, Bmap(fs, k, bn), own, own', k, SlotOf(bn))
    ensures Bmap(fs, k, bn).halted ==> AllMarked(Bmap(fs, k, bn))
  {
    if bn < NDIRECT {
      own' := MapAddr(fs, own, k, bn);
    } else {
      own' := MapAddr(fs, own, k, NDIRECT);
      var fs1 := AllocAddr(fs, k, NDIRECT);
      if !fs1.halted {
        var own1 := own';
        own' := MapEntry(fs1, own1, k, bn - NDIRECT);
        if !Bmap(fs, k, bn).halted {
          MappedTwice(fs, fs1, Bmap(fs, k, bn), own, own1, own', k, NDIRECT, bn + 1);
        }
      }
    }
  }

  // ---------- bfree and itrunc ----------

  /** bfree's effect */
  function Given(fs: Fs, b: nat): (r: Fs)
    requires fs.Shape() && b < fs.sb.size
    ensures r.Shape() && r.sb == fs.sb && |r.inodes| == |fs.inodes|
  {
    fs.(disk := WithBit(fs.sb, fs.disk, b, false), logged := fs.logged + {fs.sb.BBlock(b)})
  }

  /** bfree panics on a block that is not in use; one outside the disk is not possible and halts the model. */
  function Bfree(fs: Fs, b: nat): (r: Fs)
    requires fs.Shape()
    ensures r.Shape() && r.sb == fs.sb && |r.inodes| == |fs.inodes|
  {
    if b >= fs.sb.size || !Bit(fs.sb, fs.disk, b) then Halt(fs) else Given(fs, b)
  }

  lemma GivenBits(fs: Fs, b: nat)
    requires fs.Shape() && b < fs.sb.size
    ensures BitPut(fs, Given(fs, b), b, false)
  {
    forall c: nat | c < fs.sb.size
      ensures Bit(fs.sb, Given(fs, b).disk, c) == if c == b then false else Bit(fs.sb, fs.disk, c)
    {
      WithBitAt(fs.sb, fs.disk, b, false, c);
    }
  }

  lemma GivenAddr(fs: Fs, own: map<nat, Slot>, kd: nat, m: nat, b: nat, k: nat, j: nat)
    requires Owned(fs, own, kd, m) && fs.Has(k, j) && b < fs.sb.size
    ensures Addr(Given(fs, b), k, j) == Addr(fs, k, j)
  {
    BBlockIsBitmap(fs.sb, fs.disk, b);
    PointerIsOwned(fs, own, kd, m, k, NDIRECT);
    assert fs.inodes[k].addrs[NDIRECT] == Addr(fs, k, NDIRECT);
  }

  /** Slot s0 no longer counts: it was cleared, or itrunc has passed it. */
  ghost predicate SlotGone(fs: Fs, fs': Fs, s0: Slot, kd: nat, m: nat, kd': nat, m': nat) {
    && fs'.sb == fs.sb && |fs'.inodes| == |fs.inodes|
    && forall k: nat, j: nat :: fs.Has(k, j) ==>
         if (k == s0.k && j == s0.j) || Dead(k, j, kd, m) then Dead(k, j, kd', m') || Addr(fs', k, j) == 0
         else !Dead(k, j, kd', m') && Addr(fs', k, j) == Addr(fs, k, j)
  }

  lemma ShrinkPointers(fs: Fs, fs': Fs, own: map<nat, Slot>, b: nat, kd: nat, m: nat, kd': nat, m': nat)
    requires Owned(fs, own, kd, m) && b in own && SlotGone(fs, fs', own[b], kd, m, kd', m')
    ensures PointersOwned(fs', own - {b}, kd', m')
  {
    forall k: nat, j: nat | fs'.Has(k, j) && !Dead(k, j, kd', m')
      ensures PointerOwned(fs', own - {b}, k, j)
    {
      if !Dead(k, j, kd, m) {
        PointerIsOwned(fs, own, kd, m, k, j);
      }
    }
  }

  lemma ShrinkOwners(fs: Fs, fs': Fs, own: map<nat, Slot>, b: nat, kd: nat, m: nat, kd': nat, m': nat)
    requires Owned(fs, own, kd, m) && b in own && SlotGone(fs, fs', own[b], kd, m, kd', m')
    ensures OwnersPoint(fs', own - {b}, kd', m')
  {
    OwnerIsData(fs, own, kd, m, b);
    var own' := own - {b};
    forall a: nat | a in own'
      ensures OwnerPoints(fs', own'[a], a, kd', m')
    {
      OwnerIsData(fs, own, kd, m, a);
    }
  }

  lemma OwnedShrinks(fs: Fs, fs': Fs, own: map<nat, Slot>, b: nat, kd: nat, m: nat, kd': nat, m': nat)
    requires Owned(fs, own, kd, m) && b in own && fs'.Shape()
    requires SlotGone(fs, fs', own[b], kd, m, kd', m') && BitPut(fs, fs', b, false)
    ensures Owned(fs', own - {b}, kd', m')
  {
    OwnerIsData(fs, own, kd, m, b);
    ShrinkPointers(fs, fs', own, b, kd, m, kd', m');
    ShrinkOwners(fs, fs', own, b, kd, m, kd', m');
  }

  function FreeAddr(fs: Fs, k: nat, j: nat): (r: Fs)
    requires fs.Shape() && k < |fs.inodes| && j < NDIRECT
    ensures r.Shape() && r.sb == fs.sb && |r.inodes| == |fs.inodes|
  {
    if fs.inodes[k].addrs[j] == 0 then fs
    else
      var f := Bfree(fs, fs.inodes[k].addrs[j]);
      if f.halted then f else SetAddr(f, k, j, 0)
  }

  /** itrunc's first loop, for i < n */
  function FreeDirect(fs: Fs, k: nat, n: nat): (r: Fs)
    requires fs.Shape() && k < |fs.inodes| && n <= NDIRECT
    ensures r.Shape() && r.sb == fs.sb && |r.inodes| == |fs.inodes|
  {
    if n == 0 then fs
    else
      var f := FreeDirect(fs, k, n - 1);
      if f.halted then f else FreeAddr(f, k, n - 1)
  }

  function FreeEntry(fs: Fs, x: Word, n: nat): (r: Fs)
    requires fs.Shape() && x < fs.sb.size && n < NINDIRECT
    ensures r.Shape() && r.sb == fs.sb && r.inodes == fs.inodes
  {
    if LoadWord(fs.disk[x], n) == 0 then fs else Bfree(fs, LoadWord(fs.disk[x], n))
  }

  /** itrunc's second loop, for j < n, over the indirect block at x */
  function FreeEntries(fs: Fs, x: Word, n: nat): (r: Fs)
    requires fs.Shape() && x < fs.sb.size && n <= NINDIRECT
    ensures r.Shape() && r.sb == fs.sb && r.inodes == fs.inodes
  {
    if n == 0 then fs
    else
      var f := FreeEntries(fs, x, n - 1);
      if f.halted then f else FreeEntry(f, x, n - 1)
  }

  function FreeIndirect(fs: Fs, k: nat): (r: Fs)
    requires fs.Shape() && k < |fs.inodes|
    ensures r.Shape() && r.sb == fs.sb && |r.inodes| == |fs.inodes|
  {
    var x := fs.inodes[k].addrs[NDIRECT];
    if x == 0 then fs
    else if x >= fs.sb.size then Halt(fs)
    else
      var f := FreeEntries(fs, x, NINDIRECT);
      if f.halted then f
      else
        var g := Bfree(f, x);
        if g.halted then g else SetAddr(g, k, NDIRECT, 0)
  }

  /** iupdate: the inode's slot of its inode block is overwritten with the in-memory copy. */
  function Iupdate(fs: Fs, k: nat): (r: Fs)
    requires fs.Shape() && k < |fs.inodes|
    ensures r.Shape() && r.sb == fs.sb && r.inodes == fs.inodes
  {
    fs.(disk := WithInode(fs.sb, fs.disk, k, fs.inodes[k]), logged := fs.logged + {fs.sb.IBlock(k)})
  }

  function SetSize(fs: Fs, k: nat, size: Word): (r: Fs)
    requires fs.Shape() && k < |fs.inodes|
    ensures r.Shape() && r.sb == fs.sb && |r.inodes| == |fs.inodes|
  {
    fs.(inodes := fs.inodes[k := fs.inodes[k].(size := size)])
  }

  function Itrunc(fs: Fs, k: nat): (r: Fs)
    requires fs.Shape() && k < |fs.inodes|
    ensures r.Shape() && r.sb == fs.sb && |r.inodes| == |fs.inodes|
  {
    var f := FreeDirect(fs, k, NDIRECT);
    if f.halted then f
    else
      var g := FreeIndirect(f, k);
      if g.halted then g else Iupdate(SetSize(g, k, 0), k)
  }

  /** The blocks that remain in use after some of inode k's were freed. */
  ghost predicate Shed(own: map<nat, Slot>, own': map<nat, Slot>, k: nat) {
    && (forall a: nat :: a in own' ==> a in own && own'[a] == own[a])
    && (forall a: nat :: a in own && own[a].k != k ==> a in own')
  }

  /** Nothing but inode k and the bitmap changes. */
  ghost predicate Freeing(fs: Fs, fs': Fs, k: nat) {
    && fs'.sb == fs.sb && |fs'.disk| == |fs.disk| && SameInodes(fs, fs', k) && !fs'.halted
    && InodeBlocksKept(fs, fs') && DataKept(fs, fs', 0, 0)
  }

  lemma FreeingTwice(fs: Fs, fs1: Fs, fs2: Fs, k: nat)
    requires fs.Shape() && Freeing(fs, fs1, k) && Freeing(fs1, fs2, k)
    ensures Freeing(fs, fs2, k)
  {
  }

  lemma GivenFrees(fs: Fs, k: nat, b: nat, j: nat)
    requires fs.Shape() && b < fs.sb.size && !fs.halted && k < |fs.inodes|
    ensures Freeing(fs, Given(fs, b), k)
    ensures j <= NDIRECT ==> Freeing(fs, SetAddr(Given(fs, b), k, j, 0), k)
  {
    BBlockIsBitmap(fs.sb, fs.disk, b);
  }

  lemma FreeAddrSlots(fs: Fs, own: map<nat, Slot>, k: nat, j: nat, b: nat)
    requires Owned(fs, own, 0, 0) && fs.Has(k, j) && j < NDIRECT && b < fs.sb.size
    ensures SlotGone(fs, SetAddr(Given(fs, b), k, j, 0), Slot(k, j), 0, 0, 0, 0)
  {
    var f := Given(fs, b);
    forall k2: nat, j2: nat | fs.Has(k2, j2)
      ensures Addr(SetAddr(f, k, j, 0), k2, j2) == if k2 == k && j2 == j then 0 else Addr(fs, k2, j2)
    {
      SetAddrAt(f, k, j, 0, k2, j2);
      GivenAddr(fs, own, 0, 0, b, k2, j2);
    }
  }

  lemma FreeAddrOwned(fs: Fs, own: map<nat, Slot>, k: nat, j: nat, b: nat)
    requires Owned(fs, own, 0, 0) && fs.Has(k, j) && j < NDIRECT && b == fs.inodes[k].addrs[j] && b != 0
    ensures b < fs.sb.size && Bit(fs.sb, fs.disk, b) && b in own && own[b].k == k
    ensures Owned(SetAddr(Given(fs, b), k, j, 0), own - {b}, k, 0)
  {
    assert b == Addr(fs, k, j);
    PointerIsOwned(fs, own, 0, 0, k, j);
    FreeAddrSlots(fs, own, k, j, b);
    GivenBits(fs, b);
    OwnedShrinks(fs, SetAddr(Given(fs, b), k, j, 0), own, b, 0, 0, 0, 0);
    NoneDead(SetAddr(Given(fs, b), k, j, 0), own - {b}, 0, k);
  }

  lemma ShedTwice(own: map<nat, Slot>, own1: map<nat, Slot>, own2: map<nat, Slot>, k: nat)
    requires Shed(own, own1, k) && Shed(own1, own2, k)
    ensures Shed(own, own2, k)
  {
  }

  /** The first n addresses of an inode are 0, the others as before. */
  ghost predicate Cleared(before: Addrs, after: Addrs, n: nat) {
    forall j: nat :: j < NADDRS ==> after[j] == if j < n then 0 else before[j]
  }

  /** The bitmap blocks of the blocks that are in own but no longer in own'. */
  ghost function BitsFreed(sb: Super, own: map<nat, Slot>, own': map<nat, Slot>): set<nat> {
    set b: nat | b in own && b !in own' :: sb.BBlock(b)
  }

  /** Some blocks of inode k were freed, the first m indirect entries among them; their bitmap blocks were logged. */
  ghost predicate Freed(fs: Fs, fs': Fs, own: map<nat, Slot>, own': map<nat, Slot>, k: nat, m: nat) {
    && Owned(fs', own', k, m) && Shed(own, own', k) && Freeing(fs, fs', k)
    && fs'.logged == fs.logged + BitsFreed(fs.sb, own, own')
  }

  lemma BitsFreedTwice(sb: Super, own: map<nat, Slot>, own1: map<nat, Slot>, own2: map<nat, Slot>, k: nat)
    requires Shed(own, own1, k) && Shed(own1, own2, k)
    ensures BitsFreed(sb, own, own2) == BitsFreed(sb, own, own1) + BitsFreed(sb, own1, own2)
  {
    forall x: nat
      ensures x in BitsFreed(sb, own, own2) <==> x in BitsFreed(sb, own, own1) || x in BitsFreed(sb, own1, own2)
    {
    }
  }

  lemma FreedOne(fs: Fs, r: Fs, own: map<nat, Slot>, k: nat, b: nat, m: nat)
    requires b in own && own[b].k == k && Owned(r, own - {b}, k, m) && Freeing(fs, r, k)
    requires r.logged == fs.logged + {fs.sb.BBlock(b)}
    ensures Freed(fs, r, own, own - {b}, k, m)
  {
    assert b !in own - {b};
    assert BitsFreed(fs.sb, own, own - {b}) == {fs.sb.BBlock(b)};
  }

  lemma FreedTwice(fs: Fs, fs1: Fs, fs2: Fs, own: map<nat, Slot>, own1: map<nat, Slot>, own2: map<nat, Slot>, k: nat,
                   m: nat, n: nat)
    requires fs.Shape() && Freed(fs, fs1, own, own1, k, m) && Freed(fs1, fs2, own1, own2, k, n)
    ensures Freed(fs, fs2, own, own2, k, n)
  {
    ShedTwice(own, own1, own2, k);
    FreeingTwice(fs, fs1, fs2, k);
    BitsFreedTwice(fs.sb, own, own1, own2, k);
  }

  lemma FreedNothing(fs: Fs, own: map<nat, Slot>, k: nat)
    requires Owned(fs, own, 0, 0) && !fs.halted
    ensures Freed(fs, fs, own, own, k, 0)
  {
    NoneDead(fs, own, 0, k);
  }

  lemma NoneDead(fs: Fs, own: map<nat, Slot>, kd: nat, kd': nat)
    requires Owned(fs, own, kd, 0)
    ensures Owned(fs, own, kd', 0)
  {
    forall a: nat | a in own
      ensures OwnerPoints(fs, own[a], a, kd', 0)
    {
      OwnerIsData(fs, own, kd, 0, a);
    }
    forall k2: nat, j2: nat | fs.Has(k2, j2) && !Dead(k2, j2, kd', 0)
      ensures PointerOwned(fs, own, k2, j2)
    {
      assert !Dead(k2, j2, kd, 0);
    }
  }

  lemma FreeAddrFrees(fs: Fs, own: map<nat, Slot>, k: nat, j: nat) returns (own': map<nat, Slot>)
    requires Owned(fs, own, k, 0) && fs.Has(k, j) && j < NDIRECT && !fs.halted
    ensures var r := FreeAddr(fs, k, j);
            Freed(fs, r, own, own', k, 0) && r.inodes[k].addrs == fs.inodes[k].addrs[j := 0]
  {
    own' := own;
    var b := fs.inodes[k].addrs[j];
    NoneDead(fs, own, k, 0);
    if b == 0 {
      FreedNothing(fs, own, k);
    } else {
      FreeAddrOwned(fs, own, k, j, b);
      GivenFrees(fs, k, b, j);
      FreedOne(fs, SetAddr(Given(fs, b), k, j, 0), own, k, b, 0);
      own' := own - {b as nat};
    }
  }

  lemma {:induction false} FreeDirectOn(fs: Fs, f: Fs, own: map<nat, Slot>, own1: map<nat, Slot>, k: nat, i: nat,
                                        n: nat)
    returns (own': map<nat, Slot>)
    requires fs.Shape() && k < |fs.inodes| && i <= n <= NDIRECT && f == FreeDirect(fs, k, i)
    requires Freed(fs, f, own, own1, k, 0) && Cleared(fs.inodes[k].addrs, f.inodes[k].addrs, i)
    ensures var r := FreeDirect(fs, k, n);
            Freed(fs, r, own, own', k, 0) && Cleared(fs.inodes[k].addrs, r.inodes[k].addrs, n)
    decreases n - i
  {
    own' := own1;
    if i < n {
      own' := FreeDirectStep(fs, f, own, own1, k, i);
      own' := FreeDirectOn(fs, FreeAddr(f, k, i), own, own', k, i + 1, n);
    }
  }

  lemma FreeDirectFrees(fs: Fs, own: map<nat, Slot>, k: nat) returns (own': map<nat, Slot>)
    requires Owned(fs, own, 0, 0) && k < |fs.inodes| && !fs.halted
    ensures var r := FreeDirect(fs, k, NDIRECT);
            Freed(fs, r, own, own', k, 0) && Cleared(fs.inodes[k].addrs, r.inodes[k].addrs, NDIRECT)
  {
    FreedNothing(fs, own, k);
    own' := FreeDirectOn(fs, fs, own, own, k, 0, NDIRECT);
  }

  lemma FreeDirectStep(fs: Fs, f: Fs, own: map<nat, Slot>, own1: map<nat, Slot>, k: nat, n: nat)
    returns (own': map<nat, Slot>)
    requires fs.Shape() && Freed(fs, f, own, own1, k, 0) && k < |fs.inodes| && n < NDIRECT
    requires Cleared(fs.inodes[k].addrs, f.inodes[k].addrs, n)
    ensures !f.halted && Freed(fs, FreeAddr(f, k, n), own, own', k, 0)
    ensures Cleared(fs.inodes[k].addrs, FreeAddr(f, k, n).inodes[k].addrs, n + 1)
  {
    own' := FreeAddrFrees(f, own1, k, n);
    FreedTwice(fs, f, FreeAddr(f, k, n), own, own1, own', k, 0, 0);
  }

  /** itrunc passes a hole of the indirect block. */
  lemma PassHole(fs: Fs, own: map<nat, Slot>, k: nat, n: nat)
    requires Owned(fs, own, k, n) && n < NINDIRECT && k < |fs.inodes| && Addr(fs, k, NDIRECT + 1 + n) == 0
    ensures Owned(fs, own, k, n + 1)
  {
    forall a: nat | a in own
      ensures OwnerPoints(fs, own[a], a, k, n + 1)
    {
      OwnerIsData(fs, own, k, n, a);
    }
    forall k2: nat, j2: nat | fs.Has(k2, j2) && !Dead(k2, j2, k, n + 1)
      ensures PointerOwned(fs, own, k2, j2)
    {
    }
  }

  lemma FreeEntrySlots(fs: Fs, own: map<nat, Slot>, k: nat, n: nat, b: nat)
    requires Owned(fs, own, k, n) && k < |fs.inodes| && n < NINDIRECT && b < fs.sb.size
    ensures SlotGone(fs, Given(fs, b), Slot(k, NDIRECT + 1 + n), k, n, k, n + 1)
  {
    forall k2: nat, j2: nat | fs.Has(k2, j2)
      ensures Addr(Given(fs, b), k2, j2) == Addr(fs, k2, j2)
    {
      GivenAddr(fs, own, k, n, b, k2, j2);
    }
  }

  lemma FreeOneEntry(fs: Fs, own: map<nat, Slot>, k: nat, b: nat, n: nat)
    requires Owned(fs, own, k, n) && k < |fs.inodes| && n < NINDIRECT && !fs.halted
    requires b == Addr(fs, k, NDIRECT + 1 + n) && b != 0
    ensures b < fs.sb.size && Bit(fs.sb, fs.disk, b)
    ensures Freed(fs, Given(fs, b), own, own - {b}, k, n + 1)
  {
    PointerIsOwned(fs, own, k, n, k, NDIRECT + 1 + n);
    FreeEntryOwned(fs, own, k, b, n, Given(fs, b));
    GivenFrees(fs, k, b, 0);
    FreedOne(fs, Given(fs, b), own, k, b, n + 1);
  }

  lemma FreeEntryOwned(fs: Fs, own: map<nat, Slot>, k: nat, b: nat, n: nat, r: Fs)
    requires Owned(fs, own, k, n) && k < |fs.inodes| && n < NINDIRECT && b < fs.sb.size
    requires b in own && own[b] == Slot(k, NDIRECT + 1 + n) && r == Given(fs, b)
    ensures Owned(r, own - {b}, k, n + 1)
  {
    FreeEntrySlots(fs, own, k, n, b);
    GivenBits(fs, b);
    OwnedShrinks(fs, r, own, b, k, n, k, n + 1);
  }

  lemma FreeEntryFrees(fs: Fs, own: map<nat, Slot>, k: nat, x: Word, n: nat) returns (own': map<nat, Slot>)
    requires Owned(fs, own, k, n) && k < |fs.inodes| && n < NINDIRECT && !fs.halted
    requires x == fs.inodes[k].addrs[NDIRECT] && x != 0 && x < fs.sb.size
    ensures Freed(fs, FreeEntry(fs, x, n), own, own', k, n + 1)
  {
    own' := own;
    var b := LoadWord(fs.disk[x], n);
    assert b == Addr(fs, k, NDIRECT + 1 + n);
    if b == 0 {
      PassHole(fs, own, k, n);
    } else {
      FreeOneEntry(fs, own, k, b, n);
      own' := own - {b as nat};
    }
  }

  lemma FreeEntryStep(fs: Fs, f: Fs, own: map<nat, Slot>, own1: map<nat, Slot>, k: nat, x: Word, n: nat)
    returns (own': map<nat, Slot>)
    requires fs.Shape() && Freed(fs, f, own, own1, k, n) && k < |f.inodes| && n < NINDIRECT
    requires x == f.inodes[k].addrs[NDIRECT] && x != 0 && x < fs.sb.size
    ensures !f.halted && Freed(fs, FreeEntry(f, x, n), own, own', k, n + 1)
  {
    own' := FreeEntryFrees(f, own1, k, x, n);
    FreedTwice(fs, f, FreeEntry(f, x, n), own, own1, own', k, n, n + 1);
  }

  lemma {:induction false} FreeEntriesOn(fs: Fs, own: map<nat, Slot>, own1: map<nat, Slot>, k: nat, x: Word, i: nat,
                                         n: nat)
    returns (own': map<nat, Slot>)
    requires fs.Shape() && x < fs.sb.size && i <= n <= NINDIRECT
    requires Freed(fs, FreeEntries(fs, x, i), own, own1, k, i) && k < |fs.inodes|
    requires x == fs.inodes[k].addrs[NDIRECT] && x != 0
    ensures Freed(fs, FreeEntries(fs, x, n), own, own', k, n)
    decreases n - i
  {
    own' := own1;
    if i < n {
      own' := FreeEntryStep(fs, FreeEntries(fs, x, i), own, own1, k, x, i);
      own' := FreeEntriesOn(fs, own, own', k, x, i + 1, n);
    }
  }

  lemma FreeEntriesFrees(fs: Fs, own: map<nat, Slot>, k: nat, x: Word) returns (own': map<nat, Slot>)
    requires Owned(fs, own, 0, 0) && k < |fs.inodes| && !fs.halted
    requires x == fs.inodes[k].addrs[NDIRECT] && x != 0 && x < fs.sb.size
    ensures Freed(fs, FreeEntries(fs, x, NINDIRECT), own, own', k, NINDIRECT)
  {
    FreedNothing(fs, own, k);
    own' := FreeEntriesOn(fs, own, own, k, x, 0, NINDIRECT);
  }

  /** Clearing the pointer to the indirect block makes every pointer in it unreachable. */
  lemma ClearIndirectSlots(fs: Fs, own: map<nat, Slot>, k: nat, b: nat)
    requires Owned(fs, own, k, NINDIRECT) && k < |fs.inodes| && b < fs.sb.size
    ensures SlotGone(fs, SetAddr(Given(fs, b), k, NDIRECT, 0), Slot(k, NDIRECT), k, NINDIRECT, 0, 0)
  {
    var f := Given(fs, b);
    forall k2: nat, j2: nat | fs.Has(k2, j2)
      ensures Addr(SetAddr(f, k, NDIRECT, 0), k2, j2) == if k2 == k && j2 >= NDIRECT then 0 else Addr(fs, k2, j2)
    {
      SetAddrAt(f, k, NDIRECT, 0, k2, j2);
      GivenAddr(fs, own, k, NINDIRECT, b, k2, j2);
    }
  }

  lemma ClearIndirectOwned(fs: Fs, own: map<nat, Slot>, k: nat, x: Word)
    requires Owned(fs, own, k, NINDIRECT) && k < |fs.inodes| && x == fs.inodes[k].addrs[NDIRECT] && x != 0
    ensures x < fs.sb.size && Bit(fs.sb, fs.disk, x) && x in own && own[x].k == k
    ensures Owned(SetAddr(Given(fs, x), k, NDIRECT, 0), own - {x as nat}, k, 0)
  {
    assert x == Addr(fs, k, NDIRECT);
    PointerIsOwned(fs, own, k, NINDIRECT, k, NDIRECT);
    ClearIndirectSlots(fs, own, k, x);
    GivenBits(fs, x);
    OwnedShrinks(fs, SetAddr(Given(fs, x), k, NDIRECT, 0), own, x, k, NINDIRECT, 0, 0);
    NoneDead(SetAddr(Given(fs, x), k, NDIRECT, 0), own - {x as nat}, 0, k);
  }

  lemma ClearIndirect(fs: Fs, own: map<nat, Slot>, k: nat, x: Word)
    requires Owned(fs, own, k, NINDIRECT) && k < |fs.inodes| && !fs.halted && x == fs.inodes[k].addrs[NDIRECT] && x != 0
    ensures x < fs.sb.size && Bit(fs.sb, fs.disk, x)
    ensures Freed(fs, SetAddr(Given(fs, x), k, NDIRECT, 0), own, own - {x as nat}, k, 0)
  {
    ClearIndirectOwned(fs, own, k, x);
    GivenFrees(fs, k, x, NDIRECT);
    FreedOne(fs, SetAddr(Given(fs, x), k, NDIRECT, 0), own, k, x, 0);
  }

  lemma FreeIndirectFrees(fs: Fs, own: map<nat, Slot>, k: nat) returns (own': map<nat, Slot>)
    requires Owned(fs, own, 0, 0) && k < |fs.inodes| && !fs.halted
    ensures Freed(fs, FreeIndirect(fs, k), own, own', k, 0)
    ensures FreeIndirect(fs, k).inodes[k].addrs == fs.inodes[k].addrs[NDIRECT := 0]
  {
    own' := own;
    var x := fs.inodes[k].addrs[NDIRECT];
    if x == 0 {
      FreedNothing(fs, own, k);
    } else {
      assert x == Addr(fs, k, NDIRECT);
      PointerIsOwned(fs, own, 0, 0, k, NDIRECT);
      var own1 := FreeEntriesFrees(fs, own, k, x);
      var f := FreeEntries(fs, x, NINDIRECT);
      ClearIndirect(f, own1, k, x);
      own' := own1 - {x as nat};
      FreedTwice(fs, f, FreeIndirect(fs, k), own, own1, own', k, NINDIRECT, 0);
    }
  }

  // ---------- iupdate ----------

  /** The inode on disk is the one in memory. */
  ghost predicate Synced(fs: Fs, k: nat) {
    fs.Shape() && k < |fs.inodes| && DiskInode(fs.sb, fs.disk, k) == fs.inodes[k]
  }

  lemma IupdateSyncs(fs: Fs, k: nat, i: nat)
    requires fs.Shape() && k < |fs.inodes| && i < |fs.inodes|
    ensures Synced(Iupdate(fs, k), i) <==> i == k || Synced(fs, i)
  {
    WithInodeAt(fs.sb, fs.disk, k, fs.inodes[k], i);
  }

  /** ilock of an inode that is not cached: what the disk holds becomes the effective inode. */
  function Reload(fs: Fs, k: nat): (r: Fs)
    requires fs.Shape() && k < |fs.inodes|
    ensures r.Shape() && r.sb == fs.sb && |r.inodes| == |fs.inodes|
  {
    fs.(inodes := fs.inodes[k := DiskInode(fs.sb, fs.disk, k)])
  }

  /** Every block that is marked in use has an owner, and no two pointers share one. */
  ghost predicate Sound(fs: Fs) {
    exists own: map<nat, Slot> :: Owned(fs, own, 0, 0)
  }

  /** The inode on disk has some of the pointers of the one in memory, and none of its own. */
  ghost predicate LagsBehind(fs: Fs, k: nat) {
    && fs.Shape() && k < |fs.inodes|
    && forall j: nat :: j < NADDRS ==> Lags(fs, k, j)
  }

  predicate Lags(fs: Fs, k: nat, j: nat)
    requires fs.Shape() && k < |fs.inodes| && j < NADDRS
  {
    var a := DiskInode(fs.sb, fs.disk, k).addrs[j];
    a == 0 || a == fs.inodes[k].addrs[j]
  }

  lemma ReloadAddr(fs: Fs, k: nat, k2: nat, j2: nat)
    requires LagsBehind(fs, k) && fs.Has(k2, j2)
    ensures Addr(Reload(fs, k), k2, j2) == 0 || Addr(Reload(fs, k), k2, j2) == Addr(fs, k2, j2)
  {
    assert Lags(fs, k, if j2 < NDIRECT then j2 else NDIRECT);
  }

  /** A block whose pointer is only in memory stays marked, but after the reload nothing points to it. */
  lemma Leaks(fs: Fs, own: map<nat, Slot>, k: nat, j: nat, b: nat)
    requires Owned(fs, own, 0, 0) && LagsBehind(fs, k) && j < NADDRS && b == fs.inodes[k].addrs[j] && b != 0
    requires DiskInode(fs.sb, fs.disk, k).addrs[j] == 0
    ensures var r := Reload(fs, k);
            && b < r.sb.size && Bit(r.sb, r.disk, b) && b >= r.sb.dataStart
            && forall k2: nat, j2: nat :: r.Has(k2, j2) ==> Addr(r, k2, j2) != b
  {
    assert b == Addr(fs, k, j);
    PointerIsOwned(fs, own, 0, 0, k, j);
    forall k2: nat, j2: nat | fs.Has(k2, j2)
      ensures Addr(Reload(fs, k), k2, j2) != b
    {
      ReloadAddr(fs, k, k2, j2);
      NoSharing(fs, own, 0, 0, k, j, k2, j2);
    }
  }

  /** Reading the inode back keeps the file system sound exactly if the disk has all of its pointers. */
  lemma ReloadSound(fs: Fs, own: map<nat, Slot>, k: nat)
    requires Owned(fs, own, 0, 0) && LagsBehind(fs, k)
    ensures Sound(Reload(fs, k)) <==> DiskInode(fs.sb, fs.disk, k).addrs == fs.inodes[k].addrs
  {
    var r := Reload(fs, k);
    if DiskInode(fs.sb, fs.disk, k).addrs == fs.inodes[k].addrs {
      SameAddrsOwned(fs, r, own);
      assert Owned(r, own, 0, 0);
    } else {
      var j: nat :| j < NADDRS && DiskInode(fs.sb, fs.disk, k).addrs[j] != fs.inodes[k].addrs[j];
      assert Lags(fs, k, j);
      Leaks(fs, own, k, j, fs.inodes[k].addrs[j]);
      NoOwner(r, fs.inodes[k].addrs[j]);
    }
  }

  lemma NoOwner(r: Fs, b: nat)
    requires r.Shape() && b < r.sb.size && Bit(r.sb, r.disk, b) && b >= r.sb.dataStart
    requires forall k2: nat, j2: nat :: r.Has(k2, j2) ==> Addr(r, k2, j2) != b
    ensures !Sound(r)
  {
    forall own: map<nat, Slot>
      ensures !Owned(r, own, 0, 0)
    {
      assert OwnersPoint(r, own, 0, 0) && b in own ==> OwnerPoints(r, own[b], b, 0, 0);
    }
  }

  /** The inode blocks hold no bits, no pointers that count and no file contents. */
  ghost predicate Unseen(fs: Fs, fs': Fs) {
    && fs'.sb == fs.sb && fs'.inodes == fs.inodes && |fs'.disk| == |fs.disk|
    && forall a: nat :: fs.sb.bmapstart <= a < |fs.disk| ==> fs'.disk[a] == fs.disk[a]
  }

  lemma IupdateUnseen(fs: Fs, k: nat)
    requires fs.Shape() && k < |fs.inodes|
    ensures Unseen(fs, Iupdate(fs, k))
  {
    IBlockIsInode(fs.sb, fs.disk, k);
  }

  lemma UnseenAddr(fs: Fs, fs': Fs, own: map<nat, Slot>, k: nat, j: nat)
    requires Owned(fs, own, 0, 0) && Unseen(fs, fs') && fs.Has(k, j)
    ensures Addr(fs', k, j) == Addr(fs, k, j)
  {
    PointerIsOwned(fs, own, 0, 0, k, NDIRECT);
    assert fs.inodes[k].addrs[NDIRECT] == Addr(fs, k, NDIRECT);
  }

  lemma UnseenKeeps(fs: Fs, fs': Fs, own: map<nat, Slot>)
    requires Owned(fs, own, 0, 0) && Unseen(fs, fs')
    ensures Owned(fs', own, 0, 0) && BlocksKept(fs, fs')
  {
    forall k: nat, j: nat | fs.Has(k, j)
      ensures Addr(fs', k, j) == Addr(fs, k, j)
    {
      UnseenAddr(fs, fs', own, k, j);
    }
    UnseenOwned(fs, fs', own);
    UnseenBlocks(fs, fs', own);
  }

  ghost predicate SameAddrs(fs: Fs, fs': Fs) {
    |fs'.inodes| == |fs.inodes| && forall k: nat, j: nat :: fs.Has(k, j) ==> Addr(fs', k, j) == Addr(fs, k, j)
  }

  lemma SameAddrsOwned(fs: Fs, fs': Fs, own: map<nat, Slot>)
    requires Owned(fs, own, 0, 0) && fs'.sb == fs.sb && SameAddrs(fs, fs')
    ensures PointersOwned(fs', own, 0, 0) && OwnersPoint(fs', own, 0, 0)
  {
    forall k: nat, j: nat | fs'.Has(k, j) && !Dead(k, j, 0, 0)
      ensures PointerOwned(fs', own, k, j)
    {
      PointerIsOwned(fs, own, 0, 0, k, j);
    }
    forall a: nat | a in own
      ensures OwnerPoints(fs', own[a], a, 0, 0)
    {
      OwnerIsData(fs, own, 0, 0, a);
    }
  }

  lemma UnseenOwned(fs: Fs, fs': Fs, own: map<nat, Slot>)
    requires Owned(fs, own, 0, 0) && Unseen(fs, fs') && SameAddrs(fs, fs')
    ensures Owned(fs', own, 0, 0)
  {
    SameAddrsOwned(fs, fs', own);
    forall b: nat | b < fs.sb.size
      ensures Bit(fs.sb, fs'.disk, b) == Bit(fs.sb, fs.disk, b)
    {
      BBlockIsBitmap(fs.sb, fs.disk, b);
    }
  }

  lemma UnseenBlocks(fs: Fs, fs': Fs, own: map<nat, Slot>)
    requires Owned(fs, own, 0, 0) && Unseen(fs, fs') && SameAddrs(fs, fs')
    ensures BlocksKept(fs, fs')
  {
    forall i: nat, bn: nat | i < |fs.inodes| && bn < MAXFILE
      ensures BlockOf(fs', i, bn) == BlockOf(fs, i, bn)
    {
      PointerIsOwned(fs, own, 0, 0, i, SlotOf(bn));
    }
  }

  /** Sizes, types and link counts do not bear on who owns what. */
  lemma SetSizeKeeps(fs: Fs, own: map<nat, Slot>, k: nat, size: Word)
    requires Owned(fs, own, 0, 0) && k < |fs.inodes|
    ensures Owned(SetSize(fs, k, size), own, 0, 0) && BlocksKept(fs, SetSize(fs, k, size))
  {
    SameAddrsOwned(fs, SetSize(fs, k, size), own);
  }

  // ---------- itrunc ----------

  /** What every file but k holds is left alone. */
  lemma FreeingKeepsBlock(fs: Fs, fs': Fs, own: map<nat, Slot>, k: nat, i: nat, bn: nat)
    requires Owned(fs, own, 0, 0) && Freeing(fs, fs', k) && i < |fs.inodes| && bn < MAXFILE && i != k
    ensures BlockOf(fs', i, bn) == BlockOf(fs, i, bn)
  {
    PointerIsOwned(fs, own, 0, 0, i, SlotOf(bn));
    PointerIsOwned(fs, own, 0, 0, i, NDIRECT);
    assert fs.inodes[i].addrs[NDIRECT] == Addr(fs, i, NDIRECT);
  }

  ghost predicate OthersKept(fs: Fs, fs': Fs, k: nat) {
    && |fs'.inodes| == |fs.inodes|
    && (forall i: nat :: i < |fs.inodes| && i != k ==> fs'.inodes[i] == fs.inodes[i])
    && forall i: nat, bn: nat :: i < |fs.inodes| && i != k && bn < MAXFILE ==> BlockOf(fs', i, bn) == BlockOf(fs, i, bn)
  }

  ghost predicate OthersSynced(fs: Fs, fs': Fs, k: nat) {
    forall i: nat :: i < |fs.inodes| && i != k ==> (Synced(fs', i) <==> Synced(fs, i))
  }

  ghost predicate NoBlocks(fs: Fs, k: nat) {
    k < |fs.inodes| && forall j: nat :: j < SLOTS ==> Addr(fs, k, j) == 0
  }

  lemma FreeingKeepsOthers(fs: Fs, fs': Fs, own: map<nat, Slot>, k: nat)
    requires Owned(fs, own, 0, 0) && Freeing(fs, fs', k)
    ensures OthersKept(fs, fs', k)
  {
    forall i: nat, bn: nat | i < |fs.inodes| && i != k && bn < MAXFILE
      ensures BlockOf(fs', i, bn) == BlockOf(fs, i, bn)
    {
      FreeingKeepsBlock(fs, fs', own, k, i, bn);
    }
  }

  lemma OthersKeptTwice(fs: Fs, fs1: Fs, fs2: Fs, k: nat)
    requires OthersKept(fs, fs1, k) && BlocksKept(fs1, fs2)
    requires forall i: nat :: i < |fs.inodes| && i != k ==> fs2.inodes[i] == fs1.inodes[i]
    ensures OthersKept(fs, fs2, k)
  {
  }

  lemma SameInodeBlocksSynced(fs: Fs, fs': Fs, i: nat)
    requires fs.Shape() && fs'.Shape() && fs'.sb == fs.sb && InodeBlocksKept(fs, fs') && i < |fs.inodes|
    requires fs'.inodes[i] == fs.inodes[i]
    ensures Synced(fs', i) <==> Synced(fs, i)
  {
    IBlockIsInode(fs.sb, fs.disk, i);
  }

  /** All of the inode's blocks are freed. */
  lemma TruncatedTo(fs: Fs, own: map<nat, Slot>, k: nat) returns (g: Fs, own': map<nat, Slot>)
    requires Owned(fs, own, 0, 0) && k < |fs.inodes| && !fs.halted
    ensures Freed(fs, g, own, own', k, 0) && NoBlocks(g, k) && Itrunc(fs, k) == Iupdate(SetSize(g, k, 0), k)
  {
    var f := FreeDirect(fs, k, NDIRECT);
    var own1 := FreeDirectFrees(fs, own, k);
    g := FreeIndirect(f, k);
    NoneDead(f, own1, k, 0);
    own' := FreeIndirectFrees(f, own1, k);
    FreedTwice(fs, f, g, own, own1, own', k, 0, 0);
    NoAddrs(fs.inodes[k].addrs, f.inodes[k].addrs, g, k);
  }

  lemma NoAddrs(before: Addrs, middle: Addrs, g: Fs, k: nat)
    requires Cleared(before, middle, NDIRECT) && k < |g.inodes| && g.inodes[k].addrs == middle[NDIRECT := 0]
    ensures NoBlocks(g, k)
  {
  }

  lemma NothingOwned(fs: Fs, own: map<nat, Slot>, k: nat)
    requires Owned(fs, own, k, 0) && NoBlocks(fs, k)
    ensures forall a: nat :: a in own ==> own[a].k != k
  {
    forall a: nat | a in own
      ensures own[a].k != k
    {
      OwnerIsData(fs, own, k, 0, a);
    }
  }

  lemma SameAddrsNoBlocks(fs: Fs, fs': Fs, k: nat)
    requires NoBlocks(fs, k) && k < |fs'.inodes| && fs'.inodes[k].addrs == fs.inodes[k].addrs
    ensures NoBlocks(fs', k)
  {
    assert Addr(fs, k, NDIRECT) == 0;
    forall j: nat | j < SLOTS
      ensures Addr(fs', k, j) == 0
    {
      assert Addr(fs, k, j) == 0;
    }
  }

  lemma FinishTruncate(fs: Fs, g: Fs, own: map<nat, Slot>, own': map<nat, Slot>, k: nat)
    requires Owned(fs, own, 0, 0) && k < |fs.inodes| && Freed(fs, g, own, own', k, 0) && NoBlocks(g, k)
    ensures var r := Iupdate(SetSize(g, k, 0), k);
            !r.halted && Owned(r, own', 0, 0) && NoBlocks(r, k) && OthersKept(fs, r, k)
  {
    var h := SetSize(g, k, 0);
    NoneDead(g, own', k, 0);
    SameAddrsNoBlocks(g, Iupdate(h, k), k);
    FreeingKeepsOthers(fs, g, own, k);
    SetSizeKeeps(g, own', k, 0);
    OthersKeptTwice(fs, g, h, k);
    IupdateUnseen(h, k);
    UnseenKeeps(h, Iupdate(h, k), own');
    OthersKeptTwice(fs, h, Iupdate(h, k), k);
  }

  lemma TruncatedSynced(fs: Fs, g: Fs, k: nat)
    requires fs.Shape() && g.Shape() && k < |fs.inodes| && Freeing(fs, g, k)
    ensures var r := Iupdate(SetSize(g, k, 0), k);
            Synced(r, k) && r.inodes[k].size == 0 && OthersSynced(fs, r, k)
  {
    var h := SetSize(g, k, 0);
    IupdateSyncs(h, k, k);
    forall i: nat | i < |fs.inodes| && i != k
      ensures Synced(Iupdate(h, k), i) <==> Synced(fs, i)
    {
      IupdateSyncs(h, k, i);
      SameInodeBlocksSynced(fs, h, i);
    }
  }

  /**
    itrunc frees every block of the inode exactly once - bfree's panic is unreachable - and the
    blocks left in use are exactly those of the other inodes, whose contents it leaves alone.
   */
  lemma ItruncFreesAll(fs: Fs, own: map<nat, Slot>, k: nat) returns (own': map<nat, Slot>)
    requires Owned(fs, own, 0, 0) && k < |fs.inodes| && !fs.halted
    ensures var r := Itrunc(fs, k);
            && !r.halted && Owned(r, own', 0, 0) && NoBlocks(r, k) && OthersKept(fs, r, k)
            && Synced(r, k) && r.inodes[k].size == 0 && OthersSynced(fs, r, k)
    ensures forall a: nat :: a in own' <==> a in own && own[a].k != k
    ensures forall a: nat :: a in own' ==> own'[a] == own[a]
    ensures Itrunc(fs, k).logged == fs.logged + BitsOwned(fs.sb, own, k) + {fs.sb.IBlock(k)}
  {
    var g;
    g, own' := TruncatedTo(fs, own, k);
    FinishTruncate(fs, g, own, own', k);
    TruncatedSynced(fs, g, k);
    NothingOwned(g, own', k);
    BitsFreedAll(fs.sb, own, own', k);
  }

  /** The bitmap blocks of inode k's blocks. */
  ghost function BitsOwned(sb: Super, own: map<nat, Slot>, k: nat): set<nat> {
    set b: nat | b in own && own[b].k == k :: sb.BBlock(b)
  }

  lemma BitsFreedAll(sb: Super, own: map<nat, Slot>, own': map<nat, Slot>, k: nat)
    requires Shed(own, own', k) && forall a: nat :: a in own' ==> own'[a].k != k
    ensures BitsFreed(sb, own, own') == BitsOwned(sb, own, k)
  {
    assert forall b: nat :: b in own ==> (b !in own' <==> own[b].k == k);
  }
}
