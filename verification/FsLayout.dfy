/**
  The bytes of the on-disk file system of fs.h: bits of the free map, words of indirect
  blocks, and inodes packed eight to a block.
 */
module FsLayout {
  import opened Blocks

  type Disk = seq<Block>

  const NDIRECT: nat := 12
  const NINDIRECT: nat := 128
  const MAXFILE: nat := 140
  const NADDRS: nat := 13
  const DINODE: nat := 64    // sizeof(struct dinode)
  const IPB: nat := 8        // inodes per block
  const BPB: nat := 4096     // bitmap bits per block
  const ZERO: Block := Zeros(BSIZE)

  function Zeros(n: nat): (r: seq<Byte>)
    ensures |r| == n
  {
    if n == 0 then [] else Zeros(n - 1) + [0]
  }

  lemma {:induction false} ZerosAt(n: nat, i: nat)
    requires i < n
    ensures Zeros(n)[i] == 0
  {
    if i < n - 1 {
      ZerosAt(n - 1, i);
    }
  }

  lemma {:induction false} ZeroLoads(at: nat, n: nat)
    requires at + n <= BSIZE
    ensures Load(ZERO, at, n) == 0
    decreases n
  {
    if n > 0 {
      ZerosAt(BSIZE, at);
      ZeroLoads(at + 1, n - 1);
    }
  }

  /** The superblock; data blocks start at dataStart, behind the bitmap. */
  datatype Super = Super(size: nat, ninodes: nat, inodestart: nat, bmapstart: nat, dataStart: nat) {
    function IBlock(i: nat): nat { i / IPB + inodestart }
    function BBlock(b: nat): nat { b / BPB + bmapstart }

    /** The regions follow each other and are large enough for their inodes and bits. */
    predicate Laid(disk: Disk) {
      && |disk| == size <= 0x1_0000_0000
      && 0 < inodestart <= bmapstart <= dataStart <= size
      && ninodes <= (bmapstart - inodestart) * IPB && size <= (dataStart - bmapstart) * BPB
    }
  }

  lemma IBlockIsInode(sb: Super, disk: Disk, i: nat)
    requires sb.Laid(disk) && i < sb.ninodes
    ensures sb.inodestart <= sb.IBlock(i) < sb.bmapstart
  {
  }

  lemma BBlockIsBitmap(sb: Super, disk: Disk, b: nat)
    requires sb.Laid(disk) && b < sb.size
    ensures sb.bmapstart <= sb.BBlock(b) < sb.dataStart
  {
  }

  // ---------- bits ----------

  /** x & (1 << n) */
  predicate TestBit(x: nat, n: nat) {
    if n == 0 then x % 2 == 1 else TestBit(x / 2, n - 1)
  }

  /** x | (1 << n), or x & ~(1 << n) */
  function PutBit(x: nat, n: nat, on: bool): nat {
    if n == 0 then x / 2 * 2 + (if on then 1 else 0)
    else PutBit(x / 2, n - 1, on) * 2 + x % 2
  }

  function Pow2(n: nat): (r: nat)
    ensures r > 0
  {
    if n == 0 then 1 else 2 * Pow2(n - 1)
  }

  lemma {:induction false} PutBitRange(x: nat, n: nat, on: bool, k: nat)
    requires x < Pow2(k) && n < k
    ensures PutBit(x, n, on) < Pow2(k)
  {
    if n > 0 {
      PutBitRange(x / 2, n - 1, on, k - 1);
    }
  }

  lemma {:induction false} TestPutBit(x: nat, n: nat, on: bool, m: nat)
    ensures TestBit(PutBit(x, n, on), m) == if m == n then on else TestBit(x, m)
  {
    if n > 0 && m > 0 {
      TestPutBit(x / 2, n - 1, on, m - 1);
    }
  }

  predicate BlockBit(b: Block, i: nat)
    requires i < BPB
  {
    TestBit(b[i / 8], i % 8)
  }

  function PutByteBit(x: Byte, n: nat, on: bool): Byte
    requires n < 8
  {
    assert Pow2(8) == 0x100 by {
      assert Pow2(2) == 4;
      assert Pow2(4) == 16;
      assert Pow2(6) == 64;
    }
    PutBitRange(x, n, on, 8);
    PutBit(x, n, on)
  }

  function PutBlockBit(b: Block, i: nat, on: bool): Block
    requires i < BPB
  {
    b[i / 8 := PutByteBit(b[i / 8], i % 8, on)]
  }

  lemma PutBlockBitAt(b: Block, i: nat, on: bool, j: nat)
    requires i < BPB && j < BPB
    ensures BlockBit(PutBlockBit(b, i, on), j) == if j == i then on else BlockBit(b, j)
  {
    TestPutBit(b[i / 8], i % 8, on, j % 8);
  }

  /** The bits of the n blocks from b on, where `used` says which of them are in use. */
  function BitBlock(used: nat -> bool, b: nat, n: nat): Block
    requires n <= BPB
  {
    if n == 0 then ZERO else PutBlockBit(BitBlock(used, b, n - 1), n - 1, used(b + n - 1))
  }

  lemma {:induction false} BitBlockAt(used: nat -> bool, b: nat, n: nat, i: nat)
    requires i < n <= BPB
    ensures BlockBit(BitBlock(used, b, n), i) <==> used(b + i)
  {
    PutBlockBitAt(BitBlock(used, b, n - 1), n - 1, used(b + n - 1), i);
    if i < n - 1 {
      BitBlockAt(used, b, n - 1, i);
    }
  }

  /** Block b is marked in use. */
  predicate Bit(sb: Super, disk: Disk, b: nat)
    requires sb.Laid(disk) && b < sb.size
  {
    BlockBit(disk[sb.BBlock(b)], b % BPB)
  }

  function WithBit(sb: Super, disk: Disk, b: nat, on: bool): (r: Disk)
    requires sb.Laid(disk) && b < sb.size
    ensures |r| == |disk|
  {
    disk[sb.BBlock(b) := PutBlockBit(disk[sb.BBlock(b)], b % BPB, on)]
  }

  lemma WithBitAt(sb: Super, disk: Disk, b: nat, on: bool, c: nat)
    requires sb.Laid(disk) && b < sb.size && c < sb.size
    ensures Bit(sb, WithBit(sb, disk, b, on), c) == if c == b then on else Bit(sb, disk, c)
  {
    PutBlockBitAt(disk[sb.BBlock(b)], b % BPB, on, c % BPB);
  }

  // ---------- inodes ----------

  type Addrs = a: seq<Word> | |a| == NADDRS witness seq(NADDRS, _ => 0)

  datatype Dinode = Dinode(typ: Half, major: Half, minor: Half, nlink: Half, size: Word, addrs: Addrs)

  function LoadHalf(b: Block, at: nat): Half
    requires at + 2 <= BSIZE
  {
    Pow256Word();
    Load(b, at, 2)
  }

  function LoadWordAt(b: Block, at: nat): Word
    requires at + 4 <= BSIZE
  {
    Pow256Word();
    Load(b, at, 4)
  }

  function LoadWords(b: Block, at: nat, n: nat): (r: seq<Word>)
    requires at + 4 * n <= BSIZE
    ensures |r| == n
  {
    if n == 0 then [] else LoadWords(b, at, n - 1) + [LoadWordAt(b, at + 4 * (n - 1))]
  }

  function StoreWords(b: Block, at: nat, ws: seq<Word>): Block
    requires at + 4 * |ws| <= BSIZE
    decreases |ws|
  {
    if ws == [] then b
    else Store(StoreWords(b, at, ws[..|ws| - 1]), at + 4 * (|ws| - 1), 4, ws[|ws| - 1])
  }

  function DecodeInode(b: Block, idx: nat): Dinode
    requires idx < IPB
  {
    var at := DINODE * idx;
    Dinode(LoadHalf(b, at), LoadHalf(b, at + 2), LoadHalf(b, at + 4), LoadHalf(b, at + 6),
           LoadWordAt(b, at + 8), LoadWords(b, at + 12, NADDRS))
  }

  function EncodeInode(b: Block, idx: nat, d: Dinode): Block
    requires idx < IPB
  {
    var at := DINODE * idx;
    StoreWords(StoreHead(b, at, d, 5), at + 12, d.addrs)
  }

  lemma StoreLoadApart(b: Block, at: nat, n: nat, v: nat, at': nat, n': nat)
    requires at + n <= BSIZE && at' + n' <= BSIZE && (at + n <= at' || at' + n' <= at)
    ensures Load(Store(b, at, n, v), at', n') == Load(b, at', n')
  {
    forall k | at' <= k < at' + n'
      ensures Store(b, at, n, v)[k] == b[k]
    {
      StoreFrame(b, at, n, v, k);
    }
    LoadFrame(Store(b, at, n, v), b, at', n');
  }

  lemma {:induction false} StoreWordsFrame(b: Block, at: nat, ws: seq<Word>, k: nat)
    requires at + 4 * |ws| <= BSIZE && k < BSIZE && (k < at || at + 4 * |ws| <= k)
    ensures StoreWords(b, at, ws)[k] == b[k]
    decreases |ws|
  {
    if ws != [] {
      var ws' := ws[..|ws| - 1];
      StoreFrame(StoreWords(b, at, ws'), at + 4 * (|ws| - 1), 4, ws[|ws| - 1], k);
      StoreWordsFrame(b, at, ws', k);
    }
  }

  lemma {:induction false} StoreWordsLoad(b: Block, at: nat, ws: seq<Word>, i: nat)
    requires at + 4 * |ws| <= BSIZE && i < |ws|
    ensures LoadWordAt(StoreWords(b, at, ws), at + 4 * i) == ws[i]
    decreases |ws|
  {
    var ws' := ws[..|ws| - 1];
    var b' := StoreWords(b, at, ws');
    if i == |ws| - 1 {
      Pow256Word();
      LoadStored(b', at + 4 * i, 4, ws[i]);
    } else {
      StoreWordsLoad(b, at, ws', i);
      StoreLoadApart(b', at + 4 * (|ws| - 1), 4, ws[|ws| - 1], at + 4 * i, 4);
    }
  }

  lemma {:induction false} LoadWordsAre(b: Block, at: nat, ws: seq<Word>, n: nat)
    requires n <= |ws| && at + 4 * |ws| <= BSIZE
    requires forall i :: 0 <= i < n ==> LoadWordAt(b, at + 4 * i) == ws[i]
    ensures LoadWords(b, at, n) == ws[..n]
  {
    if n > 0 {
      LoadWordsAre(b, at, ws, n - 1);
    }
  }

  lemma StoreWordsApart(b: Block, at: nat, ws: seq<Word>, at': nat, n': nat)
    requires at + 4 * |ws| <= BSIZE && at' + n' <= BSIZE && (at + 4 * |ws| <= at' || at' + n' <= at)
    ensures Load(StoreWords(b, at, ws), at', n') == Load(b, at', n')
  {
    forall k | at' <= k < at' + n'
      ensures StoreWords(b, at, ws)[k] == b[k]
    {
      StoreWordsFrame(b, at, ws, k);
    }
    LoadFrame(StoreWords(b, at, ws), b, at', n');
  }

  /** The block after the first n fields of the inode were stored: type, major, minor, nlink, size. */
  function StoreHead(b: Block, at: nat, d: Dinode, n: nat): Block
    requires at + DINODE <= BSIZE && n <= 5
  {
    if n == 0 then b
    else if n == 5 then Store(StoreHead(b, at, d, 4), at + 8, 4, d.size)
    else Store(StoreHead(b, at, d, n - 1), at + 2 * (n - 1), 2, HalfField(d, n - 1))
  }

  function HalfField(d: Dinode, n: nat): Half
    requires n < 4
  {
    if n == 0 then d.typ else if n == 1 then d.major else if n == 2 then d.minor else d.nlink
  }

  lemma {:induction false} StoreHeadHalf(b: Block, at: nat, d: Dinode, n: nat, f: nat)
    requires at + DINODE <= BSIZE && f < 4 && f < n <= 5
    ensures LoadHalf(StoreHead(b, at, d, n), at + 2 * f) == HalfField(d, f)
  {
    Pow256Word();
    if f == n - 1 {
      LoadStored(StoreHead(b, at, d, n - 1), at + 2 * f, 2, HalfField(d, f));
    } else {
      StoreHeadHalf(b, at, d, n - 1, f);
      if n == 5 {
        StoreLoadApart(StoreHead(b, at, d, 4), at + 8, 4, d.size, at + 2 * f, 2);
      } else {
        StoreLoadApart(StoreHead(b, at, d, n - 1), at + 2 * (n - 1), 2, HalfField(d, n - 1), at + 2 * f, 2);
      }
    }
  }

  lemma {:induction false} StoreHeadFrame(b: Block, at: nat, d: Dinode, n: nat, k: nat)
    requires at + DINODE <= BSIZE && n <= 5 && k < BSIZE && (k < at || at + 12 <= k)
    ensures StoreHead(b, at, d, n)[k] == b[k]
  {
    if n == 5 {
      StoreFrame(StoreHead(b, at, d, 4), at + 8, 4, d.size, k);
      StoreHeadFrame(b, at, d, 4, k);
    } else if n > 0 {
      StoreFrame(StoreHead(b, at, d, n - 1), at + 2 * (n - 1), 2, HalfField(d, n - 1), k);
      StoreHeadFrame(b, at, d, n - 1, k);
    }
  }

  lemma EncodedHalf(b: Block, idx: nat, d: Dinode, f: nat)
    requires idx < IPB && f < 4
    ensures LoadHalf(EncodeInode(b, idx, d), DINODE * idx + 2 * f) == HalfField(d, f)
  {
    var at := DINODE * idx;
    StoreHeadHalf(b, at, d, 5, f);
    StoreWordsApart(StoreHead(b, at, d, 5), at + 12, d.addrs, at + 2 * f, 2);
  }

  lemma EncodedSize(b: Block, idx: nat, d: Dinode)
    requires idx < IPB
    ensures LoadWordAt(EncodeInode(b, idx, d), DINODE * idx + 8) == d.size
  {
    var at := DINODE * idx;
    Pow256Word();
    LoadStored(StoreHead(b, at, d, 4), at + 8, 4, d.size);
    StoreWordsApart(StoreHead(b, at, d, 5), at + 12, d.addrs, at + 8, 4);
  }

  /** iupdate and then ilock: the inode that was stored is the one read back. */
  lemma InodeRoundTrip(b: Block, idx: nat, d: Dinode)
    requires idx < IPB
    ensures DecodeInode(EncodeInode(b, idx, d), idx) == d
  {
    var at := DINODE * idx;
    var r := EncodeInode(b, idx, d);
    EncodedHalf(b, idx, d, 0);
    EncodedHalf(b, idx, d, 1);
    EncodedHalf(b, idx, d, 2);
    EncodedHalf(b, idx, d, 3);
    EncodedSize(b, idx, d);
    forall i | 0 <= i < NADDRS
      ensures LoadWordAt(r, at + 12 + 4 * i) == d.addrs[i]
    {
      StoreWordsLoad(StoreHead(b, at, d, 5), at + 12, d.addrs, i);
    }
    LoadWordsAre(r, at + 12, d.addrs, NADDRS);
    assert d.addrs[..NADDRS] == d.addrs;
  }

  /** The seven other inodes of the block keep their bytes. */
  lemma InodeFrame(b: Block, idx: nat, d: Dinode, other: nat)
    requires idx < IPB && other < IPB && other != idx
    ensures DecodeInode(EncodeInode(b, idx, d), other) == DecodeInode(b, other)
  {
    var at, o := DINODE * idx, DINODE * other;
    var r := EncodeInode(b, idx, d);
    assert o + DINODE <= at || at + DINODE <= o;
    forall k | o <= k < o + DINODE
      ensures r[k] == b[k]
    {
      StoreWordsFrame(StoreHead(b, at, d, 5), at + 12, d.addrs, k);
      StoreHeadFrame(b, at, d, 5, k);
    }
    SameBytesSameInode(r, b, other);
  }

  lemma SameBytesSameInode(b: Block, c: Block, idx: nat)
    requires idx < IPB
    requires forall k :: DINODE * idx <= k < DINODE * idx + DINODE ==> b[k] == c[k]
    ensures DecodeInode(b, idx) == DecodeInode(c, idx)
  {
    var at := DINODE * idx;
    LoadFrame(b, c, at, 2);
    LoadFrame(b, c, at + 2, 2);
    LoadFrame(b, c, at + 4, 2);
    LoadFrame(b, c, at + 6, 2);
    LoadFrame(b, c, at + 8, 4);
    SameBytesSameWords(b, c, at + 12, NADDRS);
  }

  lemma {:induction false} SameBytesSameWords(b: Block, c: Block, at: nat, n: nat)
    requires at + 4 * n <= BSIZE
    requires forall k :: at <= k < at + 4 * n ==> b[k] == c[k]
    ensures LoadWords(b, at, n) == LoadWords(c, at, n)
  {
    if n > 0 {
      SameBytesSameWords(b, c, at, n - 1);
      LoadFrame(b, c, at + 4 * (n - 1), 4);
    }
  }

  /** The i-th inode on disk. */
  function DiskInode(sb: Super, disk: Disk, i: nat): Dinode
    requires sb.Laid(disk) && i < sb.ninodes
  {
    DecodeInode(disk[sb.IBlock(i)], i % IPB)
  }

  function WithInode(sb: Super, disk: Disk, i: nat, d: Dinode): (r: Disk)
    requires sb.Laid(disk) && i < sb.ninodes
    ensures |r| == |disk|
  {
    disk[sb.IBlock(i) := EncodeInode(disk[sb.IBlock(i)], i % IPB, d)]
  }

  lemma WithInodeAt(sb: Super, disk: Disk, i: nat, d: Dinode, j: nat)
    requires sb.Laid(disk) && i < sb.ninodes && j < sb.ninodes
    ensures DiskInode(sb, WithInode(sb, disk, i, d), j) == if j == i then d else DiskInode(sb, disk, j)
  {
    var b := disk[sb.IBlock(i)];
    InodeRoundTrip(b, i % IPB, d);
    if j != i && sb.IBlock(j) == sb.IBlock(i) {
      InodeFrame(b, i % IPB, d, j % IPB);
    }
  }
}
