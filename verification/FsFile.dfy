/**
  readi and writei as functions on the file system, against the flat sequence of bytes that
  a file is meant to be.
 */
module FsFile {
  import opened Basics
  import opened Blocks
  import opened FsLayout
  import opened FsSpec

  const MAXBYTES: nat := 71680  // MAXFILE * BSIZE
  const T_DIR: nat := 1
  const T_DEV: nat := 3

  // ---------- a file as bytes ----------

  function FileByte(fs: Fs, k: nat, i: nat): Byte
    requires k < |fs.inodes| && i < MAXBYTES
  {
    BlockOf(fs, k, i / BSIZE)[i % BSIZE]
  }

  /** The first n bytes of file k. */
  function Bytes(fs: Fs, k: nat, n: nat): (r: seq<Byte>)
    requires k < |fs.inodes| && n <= MAXBYTES
    ensures |r| == n
  {
    if n == 0 then [] else Bytes(fs, k, n - 1) + [FileByte(fs, k, n - 1)]
  }

  predicate SizeOk(fs: Fs, k: nat) {
    k < |fs.inodes| && fs.inodes[k].size <= MAXBYTES
  }

  function Content(fs: Fs, k: nat): (r: seq<Byte>)
    requires SizeOk(fs, k)
    ensures |r| == fs.inodes[k].size
  {
    Bytes(fs, k, fs.inodes[k].size)
  }

  lemma {:induction false} BytesAt(fs: Fs, k: nat, n: nat, i: nat)
    requires k < |fs.inodes| && i < n <= MAXBYTES
    ensures Bytes(fs, k, n)[i] == FileByte(fs, k, i)
  {
    if i < n - 1 {
      BytesAt(fs, k, n - 1, i);
    }
  }

  /** Equal blocks make equal files. */
  lemma {:induction false} SameBlocksSameBytes(fs: Fs, fs': Fs, k: nat, n: nat)
    requires k < |fs.inodes| && k < |fs'.inodes| && n <= MAXBYTES
    requires forall bn: nat :: bn < MAXFILE ==> BlockOf(fs', k, bn) == BlockOf(fs, k, bn)
    ensures Bytes(fs', k, n) == Bytes(fs, k, n)
  {
    if n > 0 {
      SameBlocksSameBytes(fs, fs', k, n - 1);
      assert BlockOf(fs', k, (n - 1) / BSIZE) == BlockOf(fs, k, (n - 1) / BSIZE);
    }
  }

  // ---------- one block ----------

  /** memmove(bp->data + lo, src, |piece|) and log_write */
  function PutData(fs: Fs, a: nat, b: Block): (r: Fs)
    requires fs.Shape() && a < fs.sb.size
    ensures r.Shape()
  {
    fs.(disk := fs.disk[a := b], logged := fs.logged + {a})
  }

  function Splice(b: Block, lo: nat, piece: seq<Byte>): Block
    requires lo + |piece| <= BSIZE
  {
    b[..lo] + piece + b[lo + |piece|..]
  }

  lemma PutDataAddrs(fs: Fs, own: map<nat, Slot>, k: nat, bn: nat, a: nat, b: Block)
    requires Owned(fs, own, 0, 0) && k < |fs.inodes| && bn < MAXFILE && a == Addr(fs, k, SlotOf(bn)) && a != 0
    requires a < fs.sb.size
    ensures SameAddrs(fs, PutData(fs, a, b)) && Owned(PutData(fs, a, b), own, 0, 0)
  {
    var fs' := PutData(fs, a, b);
    PointerIsOwned(fs, own, 0, 0, k, SlotOf(bn));
    forall k2: nat, j2: nat | fs.Has(k2, j2)
      ensures Addr(fs', k2, j2) == Addr(fs, k2, j2)
    {
      PointerIsOwned(fs, own, 0, 0, k2, NDIRECT);
      assert fs.inodes[k2].addrs[NDIRECT] == Addr(fs, k2, NDIRECT);
    }
    SameAddrsOwned(fs, fs', own);
    forall c: nat | c < fs.sb.size
      ensures Bit(fs.sb, fs'.disk, c) == Bit(fs.sb, fs.disk, c)
    {
      BitsElsewhere(fs.sb, fs.disk, fs'.disk, c);
    }
  }

  /** Writing a file's block changes that block of that file and nothing else. */
  lemma PutDataBlocks(fs: Fs, own: map<nat, Slot>, k: nat, bn: nat, a: nat, b: Block, k2: nat, bn2: nat)
    requires Owned(fs, own, 0, 0) && k < |fs.inodes| && bn < MAXFILE && a == Addr(fs, k, SlotOf(bn)) && a != 0
    requires a < fs.sb.size
    requires k2 < |fs.inodes| && bn2 < MAXFILE
    ensures BlockOf(PutData(fs, a, b), k2, bn2) == if k2 == k && bn2 == bn then b else BlockOf(fs, k2, bn2)
  {
    PutDataAddrs(fs, own, k, bn, a, b);
    NoSharing(fs, own, 0, 0, k, SlotOf(bn), k2, SlotOf(bn2));
    PutDataBlock(fs, PutData(fs, a, b), k2, bn2, Addr(fs, k2, SlotOf(bn2)), a, b);
  }

  lemma PutDataBlock(fs: Fs, fs': Fs, k2: nat, bn2: nat, a2: Word, a: nat, b: Block)
    requires fs.Shape() && a < fs.sb.size && fs' == PutData(fs, a, b) && k2 < |fs.inodes| && bn2 < MAXFILE && a != 0
    requires a2 == Addr(fs, k2, SlotOf(bn2)) == Addr(fs', k2, SlotOf(bn2))
    ensures BlockOf(fs', k2, bn2) == if a2 == a then b else BlockOf(fs, k2, bn2)
  {
  }

  // ---------- writei ----------

  /** How many bytes one pass of the loop moves. */
  function Chunk(left: nat, at: nat): (m: nat)
    ensures m <= left && at % BSIZE + m <= BSIZE && (left > 0 ==> m > 0)
  {
    Min(left, BSIZE - at % BSIZE)
  }

  /** One pass of writei's loop, after bmap. */
  function WritePiece(fs: Fs, k: nat, at: nat, piece: seq<Byte>): (r: Fs)
    requires fs.Shape() && k < |fs.inodes| && at < MAXBYTES && at % BSIZE + |piece| <= BSIZE
    ensures r.Shape() && r.sb == fs.sb && |r.inodes| == |fs.inodes|
  {
    var a := Addr(fs, k, SlotOf(at / BSIZE));
    if a >= fs.sb.size then Halt(fs) else PutData(fs, a, Splice(fs.disk[a], at % BSIZE, piece))
  }

  function WriteStep(fs: Fs, k: nat, at: nat, piece: seq<Byte>): (r: Fs)
    requires fs.Shape() && k < |fs.inodes| && at < MAXBYTES && at % BSIZE + |piece| <= BSIZE
    ensures r.Shape() && r.sb == fs.sb && |r.inodes| == |fs.inodes|
  {
    var fs1 := Bmap(fs, k, at / BSIZE);
    if fs1.halted then fs1 else WritePiece(fs1, k, at, piece)
  }

  /** The bytes of file k from off on are now src; every other byte of every file is as before. */
  ghost predicate Written(fs: Fs, fs': Fs, k: nat, off: nat, src: seq<Byte>) {
    && fs'.sb == fs.sb && |fs'.disk| == |fs.disk| && SameInodes(fs, fs', k) && InodeBlocksKept(fs, fs')
    && k < |fs.inodes| && BytesWritten(fs, fs', k, off, src) && OtherBlocksKept(fs, fs', k)
  }

  ghost predicate BytesWritten(fs: Fs, fs': Fs, k: nat, off: nat, src: seq<Byte>)
    requires k < |fs.inodes| && k < |fs'.inodes|
  {
    forall i: nat :: i < MAXBYTES ==>
      FileByte(fs', k, i) == if off <= i < off + |src| then src[i - off] else FileByte(fs, k, i)
  }

  ghost predicate OtherBlocksKept(fs: Fs, fs': Fs, k: nat) {
    && |fs'.inodes| == |fs.inodes|
    && forall i: nat, bn: nat :: i < |fs.inodes| && i != k && bn < MAXFILE ==> BlockOf(fs', i, bn) == BlockOf(fs, i, bn)
  }

  lemma NothingWritten(fs: Fs, fs': Fs, k: nat, off: nat)
    requires Quiet(fs, fs', k) && k < |fs.inodes|
    ensures Written(fs, fs', k, off, [])
  {
    forall i: nat | i < MAXBYTES
      ensures FileByte(fs', k, i) == FileByte(fs, k, i)
    {
      assert BlockOf(fs', k, i / BSIZE) == BlockOf(fs, k, i / BSIZE);
    }
  }

  lemma WrittenMore(fs: Fs, fs1: Fs, fs2: Fs, k: nat, off: nat, src1: seq<Byte>, src2: seq<Byte>)
    requires Written(fs, fs1, k, off, src1) && Written(fs1, fs2, k, off + |src1|, src2)
    ensures Written(fs, fs2, k, off, src1 + src2)
  {
    forall i: nat | i < MAXBYTES
      ensures FileByte(fs2, k, i) == if off <= i < off + |src1 + src2| then (src1 + src2)[i - off]
          else FileByte(fs, k, i)
    {
      assert FileByte(fs1, k, i) == if off <= i < off + |src1| then src1[i - off] else FileByte(fs, k, i);
    }
  }

  /** Byte i lies in the piece's part of its block exactly if it is one of the bytes written. */
  lemma InPiece(at: nat, n: nat, i: nat)
    requires at % BSIZE + n <= BSIZE
    ensures at <= i < at + n <==> i / BSIZE == at / BSIZE && at % BSIZE <= i % BSIZE < at % BSIZE + n
    ensures i / BSIZE == at / BSIZE ==> i - at == i % BSIZE - at % BSIZE
  {
  }

  lemma PieceWritten(fs: Fs, own: map<nat, Slot>, k: nat, at: nat, piece: seq<Byte>)
    requires Owned(fs, own, 0, 0) && k < |fs.inodes| && at < MAXBYTES && at % BSIZE + |piece| <= BSIZE && !fs.halted
    requires Addr(fs, k, SlotOf(at / BSIZE)) != 0
    ensures var r := WritePiece(fs, k, at, piece);
            Written(fs, r, k, at, piece) && Owned(r, own, 0, 0) && SameAddrs(fs, r) && !r.halted
            && r.inodes == fs.inodes
  {
    var bn := at / BSIZE;
    var a := Addr(fs, k, SlotOf(bn));
    PointerIsOwned(fs, own, 0, 0, k, SlotOf(bn));
    var b := Splice(fs.disk[a], at % BSIZE, piece);
    PutDataAddrs(fs, own, k, bn, a, b);
    var fs' := PutData(fs, a, b);
    forall i: nat, bn2: nat | i < |fs.inodes| && bn2 < MAXFILE
      ensures BlockOf(fs', i, bn2) == if i == k && bn2 == bn then b else BlockOf(fs, i, bn2)
    {
      PutDataBlocks(fs, own, k, bn, a, b, i, bn2);
    }
    PieceBytes(fs, fs', k, at, piece);
  }

  lemma PieceBytes(fs: Fs, fs': Fs, k: nat, at: nat, piece: seq<Byte>)
    requires k < |fs.inodes| == |fs'.inodes| && at < MAXBYTES && at % BSIZE + |piece| <= BSIZE
    requires forall bn: nat :: bn < MAXFILE ==>
      BlockOf(fs', k, bn) == if bn == at / BSIZE then Splice(BlockOf(fs, k, bn), at % BSIZE, piece)
        else BlockOf(fs, k, bn)
    ensures BytesWritten(fs, fs', k, at, piece)
  {
    forall i: nat | i < MAXBYTES
      ensures FileByte(fs', k, i) == if at <= i < at + |piece| then piece[i - at] else FileByte(fs, k, i)
    {
      InPiece(at, |piece|, i);
      var b := BlockOf(fs, k, i / BSIZE);
      assert BlockOf(fs', k, i / BSIZE) == if i / BSIZE == at / BSIZE then Splice(b, at % BSIZE, piece) else b;
    }
  }

  /** writei's loop: `off` and `src` advance together. */
  function WriteFrom(fs: Fs, k: nat, src: seq<Byte>, off: nat): (r: Fs)
    requires fs.Shape() && k < |fs.inodes| && off + |src| <= MAXBYTES
    ensures r.Shape() && r.sb == fs.sb && |r.inodes| == |fs.inodes|
    decreases |src|
  {
    if src == [] || fs.halted then fs
    else
      var m := Chunk(|src|, off);
      WriteFrom(WriteStep(fs, k, off, src[..m]), k, src[m..], off + m)
  }

  /** Every block of file k that bytes lo .. hi - 1 touch has a place on disk. */
  ghost predicate RangeMapped(fs: Fs, k: nat, lo: nat, hi: nat) {
    k < |fs.inodes| && forall bn: nat :: bn < MAXFILE && lo / BSIZE <= bn && bn * BSIZE < hi ==>
      Addr(fs, k, SlotOf(bn)) != 0
  }

  ghost predicate OwnKept(own: map<nat, Slot>, own': map<nat, Slot>) {
    forall a: nat :: a in own ==> a in own' && own'[a] == own[a]
  }

  ghost predicate Progress(fs: Fs, f: Fs, own: map<nat, Slot>, own': map<nat, Slot>, k: nat, off: nat,
                           done: seq<Byte>)
  {
    && !f.halted && Owned(f, own', 0, 0) && OwnKept(own, own') && Filled(fs, f, k)
    && Written(fs, f, k, off, done) && (done != [] ==> RangeMapped(f, k, off, off + |done|))
  }

  /** A loop pass either made progress or panicked because no block was free. */
  ghost predicate Went(fs: Fs, r: Fs, own: map<nat, Slot>, own': map<nat, Slot>, k: nat, off: nat, done: seq<Byte>) {
    if r.halted then AllMarked(r) else Progress(fs, r, own, own', k, off, done)
  }

  lemma MapThenWrite(fs: Fs, fs1: Fs, own1: map<nat, Slot>, k: nat, at: nat, piece: seq<Byte>)
    requires Quiet(fs, fs1, k) && Owned(fs1, own1, 0, 0) && k < |fs.inodes| && at < MAXBYTES
    requires at % BSIZE + |piece| <= BSIZE
    requires !fs1.halted && Addr(fs1, k, SlotOf(at / BSIZE)) != 0 && Filled(fs, fs1, k)
    ensures var r := WritePiece(fs1, k, at, piece);
            !r.halted && Owned(r, own1, 0, 0) && Filled(fs, r, k) && Written(fs, r, k, at, piece) && SameAddrs(fs1, r)
  {
    NothingWritten(fs, fs1, k, at);
    PieceWritten(fs1, own1, k, at, piece);
    WrittenMore(fs, fs1, WritePiece(fs1, k, at, piece), k, at, [], piece);
    assert [] + piece == piece;
  }

  lemma OneBlockMapped(fs: Fs, k: nat, at: nat, n: nat)
    requires k < |fs.inodes| && at < MAXBYTES && at % BSIZE + n <= BSIZE && Addr(fs, k, SlotOf(at / BSIZE)) != 0
    ensures RangeMapped(fs, k, at, at + n)
  {
  }

  lemma WriteStepWrites(fs: Fs, own: map<nat, Slot>, k: nat, at: nat, piece: seq<Byte>) returns (own': map<nat, Slot>)
    requires Owned(fs, own, 0, 0) && k < |fs.inodes| && at < MAXBYTES && at % BSIZE + |piece| <= BSIZE && !fs.halted
    ensures Went(fs, WriteStep(fs, k, at, piece), own, own', k, at, piece)
  {
    own' := BmapMaps(fs, own, k, at / BSIZE);
    var fs1 := Bmap(fs, k, at / BSIZE);
    if !fs1.halted {
      MapThenWrite(fs, fs1, own', k, at, piece);
      OneBlockMapped(WritePiece(fs1, k, at, piece), k, at, |piece|);
    }
  }

  lemma RangesMapped(fs: Fs, f: Fs, k: nat, off: nat, mid: nat, end: nat)
    requires k < |fs.inodes| && Filled(fs, f, k) && RangeMapped(fs, k, off, mid) && RangeMapped(f, k, mid, end)
    ensures RangeMapped(f, k, off, end)
  {
    forall bn: nat | bn < MAXFILE && off / BSIZE <= bn && bn * BSIZE < end
      ensures Addr(f, k, SlotOf(bn)) != 0
    {
      if bn * BSIZE < mid {
        assert Addr(fs, k, SlotOf(bn)) != 0;
      } else {
        assert mid / BSIZE <= bn;
      }
    }
  }

  lemma ProgressTwice(fs: Fs, f: Fs, r: Fs, own: map<nat, Slot>, own1: map<nat, Slot>, own2: map<nat, Slot>,
                      k: nat, off: nat, done: seq<Byte>, piece: seq<Byte>)
    requires Progress(fs, f, own, own1, k, off, done) && Progress(f, r, own1, own2, k, off + |done|, piece)
    ensures Progress(fs, r, own, own2, k, off, done + piece)
  {
    WrittenMore(fs, f, r, k, off, done, piece);
    FilledTwice(fs, f, r, k);
    if done != [] && piece != [] {
      RangesMapped(f, r, k, off, off + |done|, off + |done| + |piece|);
    } else if done != [] {
      RangeStays(f, r, k, off, off + |done|);
    }
  }

  lemma RangeStays(fs: Fs, f: Fs, k: nat, lo: nat, hi: nat)
    requires k < |fs.inodes| && Filled(fs, f, k) && RangeMapped(fs, k, lo, hi)
    ensures RangeMapped(f, k, lo, hi)
  {
  }

  lemma FilledTwice(fs: Fs, f: Fs, r: Fs, k: nat)
    requires Filled(fs, f, k) && Filled(f, r, k)
    ensures Filled(fs, r, k)
  {
  }

  lemma SameProgress(fs: Fs, f: Fs, own: map<nat, Slot>, own': map<nat, Slot>, k: nat, off: nat, off': nat,
                     done: seq<Byte>, done': seq<Byte>)
    requires Progress(fs, f, own, own', k, off, done) && off' == off && done' == done
    ensures Progress(fs, f, own, own', k, off', done')
  {
  }

  lemma WentTwice(fs: Fs, f: Fs, r: Fs, own: map<nat, Slot>, own1: map<nat, Slot>, own2: map<nat, Slot>,
                  k: nat, off: nat, done: seq<Byte>, mid: nat, rest: seq<Byte>, all: seq<Byte>)
    requires Went(fs, f, own, own1, k, off, done) && !f.halted && Went(f, r, own1, own2, k, mid, rest)
    requires mid == off + |done| && all == done + rest
    ensures Went(fs, r, own, own2, k, off, all)
  {
    if !r.halted {
      SameProgress(f, r, own1, own2, k, mid, off + |done|, rest, rest);
      ProgressTwice(fs, f, r, own, own1, own2, k, off, done, rest);
      SameProgress(fs, r, own, own2, k, off, off, done + rest, all);
    }
  }

  /** r is what the loop makes of fs. */
  ghost predicate WritesTo(fs: Fs, k: nat, src: seq<Byte>, off: nat, r: Fs) {
    fs.Shape() && k < |fs.inodes| && off + |src| <= MAXBYTES && r == WriteFrom(fs, k, src, off)
  }

  lemma WriteOnce(fs: Fs, r: Fs, k: nat, src: seq<Byte>, off: nat) returns (f: Fs)
    requires WritesTo(fs, k, src, off, r) && src != [] && !fs.halted
    ensures f == WriteStep(fs, k, off, src[..Chunk(|src|, off)])
    ensures WritesTo(f, k, src[Chunk(|src|, off)..], off + Chunk(|src|, off), r)
  {
    f := WriteStep(fs, k, off, src[..Chunk(|src|, off)]);
  }

  lemma WriteCut(fs: Fs, r: Fs, k: nat, src: seq<Byte>, off: nat, m: nat)
    returns (f: Fs, done: seq<Byte>, rest: seq<Byte>)
    requires WritesTo(fs, k, src, off, r) && src != [] && !fs.halted && m == Chunk(|src|, off)
    ensures src == done + rest && |done| == m && f == WriteStep(fs, k, off, done) && WritesTo(f, k, rest, off + m, r)
  {
    f := WriteOnce(fs, r, k, src, off);
    done, rest := src[..m], src[m..];
  }

  lemma WriteHalted(fs: Fs, k: nat, src: seq<Byte>, off: nat)
    requires fs.Shape() && k < |fs.inodes| && off + |src| <= MAXBYTES && (fs.halted || src == [])
    ensures WriteFrom(fs, k, src, off) == fs
  {
  }

  lemma SameEnd(f: Fs, k: nat, rest: seq<Byte>, end: nat, end': nat, r: Fs)
    requires WritesTo(f, k, rest, end, r) && end == end'
    ensures WritesTo(f, k, rest, end', r)
  {
  }

  lemma WriteNext(fs: Fs, r: Fs, k: nat, src: seq<Byte>, off: nat, m: nat, end: nat)
    returns (f: Fs, done: seq<Byte>, rest: seq<Byte>)
    requires WritesTo(fs, k, src, off, r) && src != [] && !fs.halted && m == Chunk(|src|, off) && end == off + m
    ensures src == done + rest && |done| == m && f == WriteStep(fs, k, off, done) && WritesTo(f, k, rest, end, r)
  {
    f, done, rest := WriteCut(fs, r, k, src, off, m);
    SameEnd(f, k, rest, off + m, end, r);
  }

  /** The loop's first pass, named. */
  lemma Unfold(fs: Fs, r: Fs, k: nat, src: seq<Byte>, off: nat)
    returns (f: Fs, done: seq<Byte>, rest: seq<Byte>, end: nat)
    requires WritesTo(fs, k, src, off, r) && src != [] && !fs.halted
    ensures src == done + rest && |done| == Chunk(|src|, off) > 0 && end == off + |done|
    ensures off % BSIZE + |done| <= BSIZE
    ensures f == WriteStep(fs, k, off, done) && (rest == [] || end % BSIZE == 0)
    ensures WritesTo(f, k, rest, end, r) && (f.halted || rest == [] ==> r == f)
  {
    var m := Chunk(|src|, off);
    end := off + m;
    f, done, rest := WriteNext(fs, r, k, src, off, m, end);
    ChunkEnds(|src|, off, m);
    if f.halted || rest == [] {
      WriteHalted(f, k, rest, end);
    }
  }

  /** A pass stops at the end of the data or of a block. */
  lemma ChunkEnds(left: nat, at: nat, m: nat)
    requires m == Chunk(left, at)
    ensures m == left || (at + m) % BSIZE == 0
  {
  }

  lemma WriteNothing(fs: Fs, own: map<nat, Slot>, k: nat, off: nat)
    requires Owned(fs, own, 0, 0) && k < |fs.inodes| && !fs.halted
    ensures Progress(fs, fs, own, own, k, off, [])
  {
    NothingWritten(fs, fs, k, off);
  }

  lemma WritePass(fs: Fs, r: Fs, own: map<nat, Slot>, k: nat, src: seq<Byte>, off: nat)
    returns (f: Fs, done: seq<Byte>, rest: seq<Byte>, end: nat, own': map<nat, Slot>)
    requires Owned(fs, own, 0, 0) && !fs.halted && WritesTo(fs, k, src, off, r)
    requires src != []
    ensures f.Shape() && k < |f.inodes| && Went(fs, f, own, own', k, off, done)
    ensures src == done + rest && end == off + |done| && |rest| < |src| && WritesTo(f, k, rest, end, r)
    ensures f.halted ==> r == f
  {
    f, done, rest, end := Unfold(fs, r, k, src, off);
    own' := WriteStepWrites(fs, own, k, off, done);
  }

  /** All of writei's loop. */
  lemma {:induction false} WriteAll(fs: Fs, r: Fs, own: map<nat, Slot>, k: nat, src: seq<Byte>, off: nat)
    returns (own': map<nat, Slot>)
    requires Owned(fs, own, 0, 0) && !fs.halted && WritesTo(fs, k, src, off, r)
    ensures Went(fs, r, own, own', k, off, src)
    decreases |src|
  {
    if src == [] {
      WriteNothing(fs, own, k, off);
      own' := own;
    } else {
      var f, done, rest, end;
      f, done, rest, end, own' := WritePass(fs, r, own, k, src, off);
      if !f.halted {
        var own1 := own';
        own' := WriteAll(f, r, own1, k, rest, end);
        WentTwice(fs, f, r, own, own1, own', k, off, done, end, rest, src);
      }
    }
  }

  /** The tests that writei and readi make on an offset and a length, in 32-bit arithmetic. */
  predicate OutOfFile(size: Word, off: Word, n: Word) {
    off > size || (off + n) % 0x1_0000_0000 < off
  }

  lemma OutOfFileMeans(size: Word, off: Word, n: Word)
    ensures OutOfFile(size, off, n) <==> off > size || off + n >= 0x1_0000_0000
  {
  }

  /** The size grows to the end of what was written, and only then is the inode updated. */
  function Grown(fs: Fs, k: nat, end: Word): (r: Fs)
    requires fs.Shape() && k < |fs.inodes|
    ensures r.Shape() && r.sb == fs.sb && |r.inodes| == |fs.inodes|
  {
    Iupdate(SetSize(fs, k, end), k)
  }

  /** writei; a device file is written by its driver, whose answer is `device`. */
  function Writei(fs: Fs, k: nat, src: seq<Byte>, off: Word, device: int): (r: (Fs, int))
    requires fs.Shape() && k < |fs.inodes| && |src| < 0x1_0000_0000
    ensures r.0.Shape() && r.0.sb == fs.sb && |r.0.inodes| == |fs.inodes|
  {
    var d := fs.inodes[k];
    if d.typ == T_DEV then (fs, device)
    else if OutOfFile(d.size, off, |src|) then (fs, -1)
    else if off + |src| > MAXBYTES then (fs, -1)
    else
      var f := WriteFrom(fs, k, src, off);
      if !f.halted && |src| > 0 && off + |src| > d.size then (Grown(f, k, off + |src|), |src|)
      else (f, |src|)
  }

  lemma WriteiIs(fs: Fs, k: nat, src: seq<Byte>, off: Word, device: int)
    requires fs.Shape() && k < |fs.inodes| && |src| < 0x1_0000_0000 && fs.inodes[k].typ != T_DEV
    ensures var w := Writei(fs, k, src, off, device);
            if off > fs.inodes[k].size || off + |src| > MAXBYTES then w == (fs, -1)
            else
              var f := WriteFrom(fs, k, src, off);
              var grows := !f.halted && src != [] && off + |src| > fs.inodes[k].size;
              w == (if grows then Grown(f, k, off + |src|) else f, |src|)
  {
    OutOfFileMeans(fs.inodes[k].size, off, |src|);
  }

  function Max(a: nat, b: nat): nat {
    if a < b then b else a
  }

  /** A flat file after n bytes were written at off, which is at most its length. */
  function Overwrite(old_: seq<Byte>, off: nat, src: seq<Byte>): seq<Byte>
    requires off <= |old_|
  {
    old_[..off] + src + (if off + |src| < |old_| then old_[off + |src|..] else [])
  }

  lemma OverwriteAt(old_: seq<Byte>, off: nat, src: seq<Byte>, i: nat)
    requires off <= |old_| && i < Max(|old_|, off + |src|)
    ensures |Overwrite(old_, off, src)| == Max(|old_|, off + |src|)
    ensures Overwrite(old_, off, src)[i] == if off <= i < off + |src| then src[i - off] else old_[i]
  {
  }

  lemma WrittenContent(fs: Fs, r: Fs, k: nat, off: nat, src: seq<Byte>)
    requires SizeOk(fs, k) && SizeOk(r, k) && off <= fs.inodes[k].size && BytesWritten(fs, r, k, off, src)
    requires r.inodes[k].size == Max(fs.inodes[k].size, off + |src|)
    ensures Content(r, k) == Overwrite(Content(fs, k), off, src)
  {
    var n, n' := fs.inodes[k].size, r.inodes[k].size;
    var c := Overwrite(Content(fs, k), off, src);
    forall i: nat | i < n'
      ensures Content(r, k)[i] == c[i]
    {
      BytesAt(r, k, n', i);
      OverwriteAt(Content(fs, k), off, src, i);
      if i < n {
        BytesAt(fs, k, n, i);
      }
    }
    assert |c| == n';
  }

  /** What a successful writei has done to the file system. */
  ghost predicate FileWritten(fs: Fs, r: Fs, own': map<nat, Slot>, k: nat, off: nat, src: seq<Byte>) {
    && !r.halted && Owned(r, own', 0, 0) && SizeOk(fs, k) && SizeOk(r, k) && off <= fs.inodes[k].size
    && Content(r, k) == Overwrite(Content(fs, k), off, src)
    && r.inodes[k] == fs.inodes[k].(addrs := r.inodes[k].addrs, size := Max(fs.inodes[k].size, off + |src|))
    && OthersKept(fs, r, k)
  }

  lemma ProgressWritten(fs: Fs, f: Fs, own: map<nat, Slot>, own': map<nat, Slot>, k: nat, off: nat, src: seq<Byte>)
    requires Progress(fs, f, own, own', k, off, src) && SizeOk(fs, k) && off <= fs.inodes[k].size
    requires off + |src| <= fs.inodes[k].size
    ensures FileWritten(fs, f, own', k, off, src)
  {
    WrittenContent(fs, f, k, off, src);
  }

  lemma GrownKeeps(f: Fs, own: map<nat, Slot>, k: nat, end: Word)
    requires Owned(f, own, 0, 0) && k < |f.inodes|
    ensures Owned(Grown(f, k, end), own, 0, 0) && BlocksKept(f, Grown(f, k, end))
    ensures Grown(f, k, end).inodes == f.inodes[k := f.inodes[k].(size := end)] && Grown(f, k, end).halted == f.halted
  {
    var h := SetSize(f, k, end);
    SetSizeKeeps(f, own, k, end);
    IupdateUnseen(h, k);
    UnseenKeeps(h, Iupdate(h, k), own);
  }

  lemma GrownAddrs(f: Fs, own: map<nat, Slot>, k: nat, end: Word)
    requires Owned(f, own, 0, 0) && k < |f.inodes|
    ensures forall j: nat :: j < SLOTS ==> Addr(Grown(f, k, end), k, j) == Addr(f, k, j)
  {
    var h := SetSize(f, k, end);
    SetSizeKeeps(f, own, k, end);
    IupdateUnseen(h, k);
    forall j: nat | j < SLOTS
      ensures Addr(Grown(f, k, end), k, j) == Addr(f, k, j)
    {
      UnseenAddr(h, Iupdate(h, k), own, k, j);
    }
  }

  lemma KeptThenKept(fs: Fs, f: Fs, r: Fs, k: nat)
    requires OtherBlocksKept(fs, f, k) && SameInodes(fs, f, k) && BlocksKept(f, r) && k < |fs.inodes|
    requires forall i: nat :: i < |f.inodes| && i != k ==> r.inodes[i] == f.inodes[i]
    ensures OthersKept(fs, r, k)
  {
  }

  lemma BytesThenKept(fs: Fs, f: Fs, r: Fs, k: nat, off: nat, src: seq<Byte>)
    requires k < |fs.inodes| && k < |f.inodes| && BytesWritten(fs, f, k, off, src) && BlocksKept(f, r)
    ensures BytesWritten(fs, r, k, off, src)
  {
    forall i: nat | i < MAXBYTES
      ensures FileByte(r, k, i) == FileByte(f, k, i)
    {
      assert BlockOf(r, k, i / BSIZE) == BlockOf(f, k, i / BSIZE);
    }
  }

  lemma GrownWritten(fs: Fs, f: Fs, own: map<nat, Slot>, own': map<nat, Slot>, k: nat, off: nat, src: seq<Byte>)
    requires Progress(fs, f, own, own', k, off, src) && SizeOk(fs, k)
    requires off <= fs.inodes[k].size < off + |src| <= MAXBYTES
    ensures FileWritten(fs, Grown(f, k, off + |src|), own', k, off, src)
  {
    var r := Grown(f, k, off + |src|);
    GrownKeeps(f, own', k, off + |src|);
    BytesThenKept(fs, f, r, k, off, src);
    WrittenContent(fs, r, k, off, src);
    KeptThenKept(fs, f, r, k);
  }

  /**
    writei refines a write to a flat sequence of bytes: it is refused exactly for an offset
    behind the end or an end beyond the largest file, and otherwise - unless it runs out of
    blocks - the contents are overwritten from `off` on, no other file changes, and the blocks in
    use are still exactly the owned ones.
   */
  lemma WriteiRefines(fs: Fs, own: map<nat, Slot>, k: nat, src: seq<Byte>, off: Word, device: int)
    returns (own': map<nat, Slot>)
    requires Owned(fs, own, 0, 0) && SizeOk(fs, k) && !fs.halted && |src| < 0x1_0000_0000 && fs.inodes[k].typ != T_DEV
    ensures var (r, n) := Writei(fs, k, src, off, device);
            if off > fs.inodes[k].size || off + |src| > MAXBYTES then n == -1 && r == fs
            else n == |src| && if r.halted then AllMarked(r) else FileWritten(fs, r, own', k, off, src)
  {
    own' := own;
    OutOfFileMeans(fs.inodes[k].size, off, |src|);
    if off <= fs.inodes[k].size && off + |src| <= MAXBYTES {
      own' := WriteAll(fs, WriteFrom(fs, k, src, off), own, k, src, off);
      var f := WriteFrom(fs, k, src, off);
      if !f.halted {
        if off + |src| > fs.inodes[k].size {
          GrownWritten(fs, f, own, own', k, off, src);
        } else {
          ProgressWritten(fs, f, own, own', k, off, src);
        }
      }
    }
  }

  // ---------- the inode on disk ----------

  /** Some block that the write touches has no pointer in the inode itself: a hole, or all of the indirect part. */
  ghost predicate FillsHole(fs: Fs, k: nat, off: nat, n: nat) {
    n > 0 && k < |fs.inodes| && exists bn: nat ::
      bn < MAXFILE && off / BSIZE <= bn && bn * BSIZE < off + n && Addr(fs, k, Min(bn, NDIRECT)) == 0
  }

  lemma BmapKeepsInodes(fs: Fs, k: nat, bn: nat)
    requires fs.Shape() && k < |fs.inodes| && bn < MAXFILE && Addr(fs, k, Min(bn, NDIRECT)) != 0
    ensures Bmap(fs, k, bn).inodes == fs.inodes
  {
  }

  lemma WriteStepKeepsInodes(fs: Fs, k: nat, at: nat, piece: seq<Byte>)
    requires fs.Shape() && k < |fs.inodes| && at < MAXBYTES && at % BSIZE + |piece| <= BSIZE
    requires Addr(fs, k, Min(at / BSIZE, NDIRECT)) != 0
    ensures WriteStep(fs, k, at, piece).inodes == fs.inodes
  {
    BmapKeepsInodes(fs, k, at / BSIZE);
  }

  lemma SamePointersNoHole(fs: Fs, f: Fs, k: nat, off: nat, n: nat)
    requires !FillsHole(fs, k, off, n) && f.inodes == fs.inodes
    ensures !FillsHole(f, k, off, n)
  {
    forall bn: nat | bn < MAXFILE && off / BSIZE <= bn && bn * BSIZE < off + n && k < |f.inodes| && n > 0
      ensures Addr(f, k, Min(bn, NDIRECT)) != 0
    {
      assert Addr(fs, k, Min(bn, NDIRECT)) != 0;
    }
  }

  lemma FirstIsNoHole(fs: Fs, k: nat, off: nat, n: nat, m: nat)
    requires fs.Shape() && k < |fs.inodes| && off + n <= MAXBYTES && 0 < m <= n && !FillsHole(fs, k, off, n)
    ensures Addr(fs, k, Min(off / BSIZE, NDIRECT)) != 0
    ensures (off + m) % BSIZE == 0 || m == n ==> !FillsHole(fs, k, off + m, n - m)
  {
    var bn := off / BSIZE;
    assert bn * BSIZE <= off < off + n;
    assert Addr(fs, k, Min(bn, NDIRECT)) != 0;
  }

  lemma {:induction false} WriteFromKeepsInodes(fs: Fs, r: Fs, k: nat, src: seq<Byte>, off: nat)
    requires WritesTo(fs, k, src, off, r)
    requires !FillsHole(fs, k, off, |src|)
    ensures r.inodes == fs.inodes
    decreases |src|
  {
    if src != [] && !fs.halted {
      var f, done, rest, end := Unfold(fs, r, k, src, off);
      FirstIsNoHole(fs, k, off, |src|, |done|);
      WriteStepKeepsInodes(fs, k, off, done);
      SamePointersNoHole(fs, f, k, end, |rest|);
      WriteFromKeepsInodes(f, r, k, rest, end);
    }
  }

  /** A hole that was filled shows in the inode. */
  lemma FilledHoleShows(fs: Fs, r: Fs, k: nat, off: nat, n: nat)
    requires FillsHole(fs, k, off, n) && RangeMapped(r, k, off, off + n)
    ensures r.inodes[k].addrs != fs.inodes[k].addrs
  {
    var bn: nat :| bn < MAXFILE && off / BSIZE <= bn && bn * BSIZE < off + n && Addr(fs, k, Min(bn, NDIRECT)) == 0;
    assert Addr(r, k, SlotOf(bn)) != 0;
  }

  lemma NotGrownSync(fs: Fs, own: map<nat, Slot>, k: nat, src: seq<Byte>, off: Word)
    requires Owned(fs, own, 0, 0) && k < |fs.inodes| && !fs.halted && off + |src| <= MAXBYTES && Synced(fs, k)
    ensures var f := WriteFrom(fs, k, src, off);
            !f.halted ==> (Synced(f, k) <==> !FillsHole(fs, k, off, |src|))
  {
    var own' := WriteAll(fs, WriteFrom(fs, k, src, off), own, k, src, off);
    var f := WriteFrom(fs, k, src, off);
    if !f.halted {
      IBlockIsInode(fs.sb, fs.disk, k);
      assert DiskInode(fs.sb, f.disk, k) == fs.inodes[k];
      if FillsHole(fs, k, off, |src|) {
        FilledHoleShows(fs, f, k, off, |src|);
      } else {
        WriteFromKeepsInodes(fs, f, k, src, off);
      }
    }
  }

  /**
    After writei the inode on disk is the one in memory - so the log holds a consistent file -
    if and only if the file grew or no pointer of the inode was filled in. Filling a hole below
    the end allocates a block without writing the inode that points to it.
   */
  lemma WriteiSync(fs: Fs, own: map<nat, Slot>, k: nat, src: seq<Byte>, off: Word, device: int)
    requires Owned(fs, own, 0, 0) && SizeOk(fs, k) && !fs.halted && |src| < 0x1_0000_0000 && fs.inodes[k].typ != T_DEV
    requires Synced(fs, k) && off <= fs.inodes[k].size && off + |src| <= MAXBYTES
    ensures var r := Writei(fs, k, src, off, device).0;
            !r.halted ==> (Synced(r, k) <==> off + |src| > fs.inodes[k].size || !FillsHole(fs, k, off, |src|))
  {
    OutOfFileMeans(fs.inodes[k].size, off, |src|);
    var f := WriteFrom(fs, k, src, off);
    if off + |src| > fs.inodes[k].size {
      if !f.halted {
        IupdateSyncs(SetSize(f, k, off + |src|), k, k);
      }
    } else {
      NotGrownSync(fs, own, k, src, off);
    }
  }

  /** The other inodes' copies on disk are left alone. */
  lemma WriteiSyncsOthers(fs: Fs, own: map<nat, Slot>, k: nat, src: seq<Byte>, off: Word, device: int)
    requires Owned(fs, own, 0, 0) && SizeOk(fs, k) && !fs.halted && |src| < 0x1_0000_0000 && fs.inodes[k].typ != T_DEV
    ensures var r := Writei(fs, k, src, off, device).0;
            !r.halted ==> OthersSynced(fs, r, k)
  {
    WriteiIs(fs, k, src, off, device);
    if off <= fs.inodes[k].size && off + |src| <= MAXBYTES {
      WriteSyncsOthers(fs, WriteFrom(fs, k, src, off), own, k, src, off);
    }
  }

  lemma WriteSyncsOthers(fs: Fs, f: Fs, own: map<nat, Slot>, k: nat, src: seq<Byte>, off: Word)
    requires Owned(fs, own, 0, 0) && !fs.halted && WritesTo(fs, k, src, off, f)
    ensures !f.halted ==> OthersSynced(fs, f, k) && OthersSynced(fs, Grown(f, k, off + |src|), k)
  {
    var own' := WriteAll(fs, f, own, k, src, off);
    if !f.halted {
      OthersSyncedThrough(fs, f, k, off + |src|);
    }
  }

  lemma OthersSyncedThrough(fs: Fs, f: Fs, k: nat, end: Word)
    requires fs.Shape() && f.Shape() && f.sb == fs.sb && k < |fs.inodes| && InodeBlocksKept(fs, f)
    requires SameInodes(fs, f, k)
    ensures OthersSynced(fs, f, k) && OthersSynced(fs, Grown(f, k, end), k)
  {
    var h := SetSize(f, k, end);
    assert InodeBlocksKept(fs, h);
    forall i: nat | i < |fs.inodes| && i != k
      ensures (Synced(f, i) <==> Synced(fs, i)) && (Synced(Grown(f, k, end), i) <==> Synced(fs, i))
    {
      assert f.inodes[i] == fs.inodes[i] && h.inodes[i] == fs.inodes[i];
      SameInodeBlocksSynced(fs, f, i);
      SameInodeBlocksSynced(fs, h, i);
      IupdateSyncs(h, k, i);
    }
  }

  // ---------- readi ----------

  /** readi's loop: the file system, which changes if it meets a hole, and the bytes so far */
  function ReadFrom(fs: Fs, k: nat, off: nat, n: nat, got: seq<Byte>): (r: (Fs, seq<Byte>))
    requires fs.Shape() && k < |fs.inodes| && off + n <= MAXBYTES && |got| <= n
    ensures r.0.Shape() && r.0.sb == fs.sb && |r.0.inodes| == |fs.inodes|
    decreases n - |got|
  {
    if |got| == n || fs.halted then (fs, got)
    else
      var f := Bmap(fs, k, (off + |got|) / BSIZE);
      ReadFrom(f, k, off, n, ReadMore(f, k, n, got, off + |got|))
  }

  /** The bytes so far and the next piece, which is at `at`; n in all are wanted. */
  function ReadMore(fs: Fs, k: nat, n: nat, got: seq<Byte>, at: nat): (r: seq<Byte>)
    requires k < |fs.inodes| && |got| < n && at < MAXBYTES
    ensures |got| < |r| <= n
  {
    got + ReadPiece(fs, k, at, Chunk(n - |got|, at))
  }

  /** result is what the loop returns. */
  ghost predicate ReadsTo(fs: Fs, k: nat, off: nat, n: nat, got: seq<Byte>, result: (Fs, seq<Byte>)) {
    fs.Shape() && k < |fs.inodes| && off + n <= MAXBYTES && |got| <= n && result == ReadFrom(fs, k, off, n, got)
  }

  /** One pass at `at`. */
  ghost predicate ReadNext(fs: Fs, f: Fs, k: nat, n: nat, got: seq<Byte>, at: nat, more: seq<Byte>) {
    && fs.Shape() && k < |fs.inodes| && at < MAXBYTES && |got| < n
    && f == Bmap(fs, k, at / BSIZE) && more == ReadMore(f, k, n, got, at)
  }

  lemma ReadOnce(fs: Fs, result: (Fs, seq<Byte>), k: nat, off: nat, n: nat, got: seq<Byte>)
    returns (f: Fs, more: seq<Byte>)
    requires ReadsTo(fs, k, off, n, got, result) && |got| < n && !fs.halted
    ensures ReadNext(fs, f, k, n, got, off + |got|, more) && ReadsTo(f, k, off, n, more, result)
  {
    f := Bmap(fs, k, (off + |got|) / BSIZE);
    more := ReadMore(f, k, n, got, off + |got|);
  }

  lemma SameAt(fs: Fs, f: Fs, k: nat, n: nat, got: seq<Byte>, at: nat, at': nat, more: seq<Byte>)
    requires ReadNext(fs, f, k, n, got, at, more) && at == at'
    ensures ReadNext(fs, f, k, n, got, at', more)
  {
  }

  /** The loop's first pass, named. */
  lemma UnfoldRead(fs: Fs, result: (Fs, seq<Byte>), k: nat, off: nat, n: nat, got: seq<Byte>, at: nat)
    returns (f: Fs, more: seq<Byte>)
    requires ReadsTo(fs, k, off, n, got, result) && |got| < n && !fs.halted && at == off + |got|
    ensures f == Bmap(fs, k, at / BSIZE) && more == ReadMore(f, k, n, got, at) && ReadsTo(f, k, off, n, more, result)
  {
    f, more := ReadOnce(fs, result, k, off, n, got);
    SameAt(fs, f, k, n, got, off + |got|, at, more);
  }

  lemma ReadHalted(f: Fs, k: nat, off: nat, n: nat, got: seq<Byte>)
    requires f.Shape() && k < |f.inodes| && off + n <= MAXBYTES && |got| <= n && f.halted
    ensures ReadFrom(f, k, off, n, got).0 == f
  {
  }

  /** m bytes of the block that holds byte `at`; the block is there once bmap has run. */
  function ReadPiece(fs: Fs, k: nat, at: nat, m: nat): (r: seq<Byte>)
    requires k < |fs.inodes| && at < MAXBYTES && at % BSIZE + m <= BSIZE
    ensures |r| == m
  {
    BlockOf(fs, k, at / BSIZE)[at % BSIZE..at % BSIZE + m]
  }

  /** readi of n bytes at off: none beyond the end; the driver's answer for a device */
  function Readi(fs: Fs, k: nat, off: Word, n: Word, device: int): (r: (Fs, seq<Byte>, int))
    requires fs.Shape() && SizeOk(fs, k)
    ensures r.0.Shape()
  {
    var d := fs.inodes[k];
    if d.typ == T_DEV then (fs, [], device)
    else if OutOfFile(d.size, off, n) then (fs, [], -1)
    else
      var n' := if off + n > d.size then d.size - off else n;
      var (f, got) := ReadFrom(fs, k, off, n', []);
      (f, got, n')
  }

  ghost predicate BytesRead(fs: Fs, k: nat, off: nat, got: seq<Byte>) {
    && k < |fs.inodes|
    && forall i: nat :: i < |got| && off + i < MAXBYTES ==> got[i] == FileByte(fs, k, off + i)
  }

  /** What a loop of readi has done: no file reads differently, and the bytes are the file's. */
  ghost predicate ReadSo(fs: Fs, f: Fs, own: map<nat, Slot>, own': map<nat, Slot>, k: nat, off: nat, got: seq<Byte>) {
    if f.halted then AllMarked(f)
    else Owned(f, own', 0, 0) && OwnKept(own, own') && Quiet(fs, f, k) && BytesRead(fs, k, off, got)
  }

  lemma PieceRead(fs: Fs, f: Fs, k: nat, off: nat, got: seq<Byte>, at: nat, m: nat, piece: seq<Byte>)
    requires BytesRead(fs, k, off, got) && BlocksKept(fs, f) && at == off + |got| < MAXBYTES && at % BSIZE + m <= BSIZE
    requires piece == ReadPiece(f, k, at, m)
    ensures BytesRead(fs, k, off, got + piece)
  {
    assert BlockOf(f, k, at / BSIZE) == BlockOf(fs, k, at / BSIZE);
    forall i: nat | i < |got + piece| && off + i < MAXBYTES
      ensures (got + piece)[i] == FileByte(fs, k, off + i)
    {
      if i >= |got| {
        PieceByte(fs, k, at, m, piece, i - |got|);
      }
    }
  }

  lemma PieceByte(fs: Fs, k: nat, at: nat, m: nat, piece: seq<Byte>, i: nat)
    requires k < |fs.inodes| && at < MAXBYTES && at % BSIZE + m <= BSIZE && piece == ReadPiece(fs, k, at, m) && i < m
    requires at + i < MAXBYTES
    ensures piece[i] == FileByte(fs, k, at + i)
  {
    InPiece(at, m, at + i);
  }

  lemma ReadPass(fs: Fs, f: Fs, f1: Fs, own: map<nat, Slot>, own1: map<nat, Slot>, k: nat, off: nat, n: nat,
                 got: seq<Byte>, at: nat, more: seq<Byte>)
    returns (own': map<nat, Slot>)
    requires ReadSo(fs, f, own, own1, k, off, got) && !f.halted && at == off + |got| < off + n <= MAXBYTES
    requires f1 == Bmap(f, k, at / BSIZE) && more == ReadMore(f1, k, n, got, at)
    ensures ReadSo(fs, f1, own, own', k, off, more)
  {
    own' := BmapMaps(f, own1, k, at / BSIZE);
    if !f1.halted {
      QuietTwice(fs, f, f1, k);
      var m := Chunk(n - |got|, at);
      PieceRead(fs, f1, k, off, got, at, m, ReadPiece(f1, k, at, m));
    }
  }

  lemma {:induction false} ReadOn(fs: Fs, f: Fs, result: (Fs, seq<Byte>), own: map<nat, Slot>, own1: map<nat, Slot>,
                                  k: nat, off: nat, n: nat, got: seq<Byte>)
    returns (own': map<nat, Slot>)
    requires ReadsTo(f, k, off, n, got, result) && ReadSo(fs, f, own, own1, k, off, got)
    ensures ReadSo(fs, result.0, own, own', k, off, result.1) && (!result.0.halted ==> |result.1| == n)
    decreases n - |got|
  {
    own' := own1;
    if |got| < n && !f.halted {
      var at := off + |got|;
      var f1, more := UnfoldRead(f, result, k, off, n, got, at);
      own' := ReadPass(fs, f, f1, own, own1, k, off, n, got, at, more);
      own' := ReadOn(fs, f1, result, own, own', k, off, n, more);
    }
  }

  lemma ReadContent(fs: Fs, k: nat, off: nat, got: seq<Byte>)
    requires SizeOk(fs, k) && BytesRead(fs, k, off, got) && off + |got| <= fs.inodes[k].size
    ensures got == Content(fs, k)[off..off + |got|]
  {
    forall i: nat | i < |got|
      ensures got[i] == Content(fs, k)[off + i]
    {
      BytesAt(fs, k, fs.inodes[k].size, off + i);
    }
  }

  /** The bytes read are the file's, and nothing that can be read has changed. */
  ghost predicate SliceRead(fs: Fs, r: Fs, own': map<nat, Slot>, k: nat, off: nat, n: nat, got: seq<Byte>) {
    if r.halted then AllMarked(r)
    else
      SizeOk(fs, k) && off + n <= fs.inodes[k].size && got == Content(fs, k)[off..off + n] && Owned(r, own', 0, 0)
      && Quiet(fs, r, k)
  }

  lemma ReadSlice(fs: Fs, own: map<nat, Slot>, k: nat, off: nat, n: nat, result: (Fs, seq<Byte>))
    returns (own': map<nat, Slot>)
    requires Owned(fs, own, 0, 0) && SizeOk(fs, k) && !fs.halted && off + n <= fs.inodes[k].size
    requires ReadsTo(fs, k, off, n, [], result)
    ensures SliceRead(fs, result.0, own', k, off, n, result.1)
  {
    own' := ReadOn(fs, fs, result, own, own, k, off, n, []);
    ReadIsSlice(fs, own, own', result, k, off, n);
  }

  lemma ReadIsSlice(fs: Fs, own: map<nat, Slot>, own': map<nat, Slot>, result: (Fs, seq<Byte>), k: nat, off: nat,
                    n: nat)
    requires SizeOk(fs, k) && off + n <= fs.inodes[k].size && ReadSo(fs, result.0, own, own', k, off, result.1)
    requires !result.0.halted ==> |result.1| == n
    ensures SliceRead(fs, result.0, own', k, off, n, result.1)
  {
    if !result.0.halted {
      ReadContent(fs, k, off, result.1);
    }
  }

  lemma ReadiIs(fs: Fs, k: nat, off: Word, n: Word, device: int)
    requires fs.Shape() && SizeOk(fs, k) && fs.inodes[k].typ != T_DEV
    ensures var size := fs.inodes[k].size;
            if off > size || off + n >= 0x1_0000_0000 then Readi(fs, k, off, n, device) == (fs, [], -1)
            else
              var (r, got) := ReadFrom(fs, k, off, Min(n, size - off), []);
              Readi(fs, k, off, n, device) == (r, got, Min(n, size - off))
  {
    OutOfFileMeans(fs.inodes[k].size, off, n);
  }

  /**
    readi returns the slice of the flat file, shortened at its end, and refuses exactly an
    offset behind the end or a length that wraps. It changes nothing that can be read; it
    may allocate, when the file has a hole.
   */
  lemma ReadiRefines(fs: Fs, own: map<nat, Slot>, k: nat, off: Word, n: Word, device: int)
    returns (own': map<nat, Slot>)
    requires Owned(fs, own, 0, 0) && SizeOk(fs, k) && !fs.halted && fs.inodes[k].typ != T_DEV
    ensures var (r, got, ret) := Readi(fs, k, off, n, device);
            var size := fs.inodes[k].size;
            if off > size || off + n >= 0x1_0000_0000 then ret == -1 && r == fs && got == []
            else ret == Min(n, size - off) && SliceRead(fs, r, own', k, off, ret, got)
  {
    own' := own;
    var size := fs.inodes[k].size;
    ReadiIs(fs, k, off, n, device);
    if off <= size && off + n < 0x1_0000_0000 {
      var n' := Min(n, size - off);
      own' := ReadSlice(fs, own, k, off, n', ReadFrom(fs, k, off, n', []));
    }
  }

  // ---------- what readi allocates ----------

  lemma InRange(fs: Fs, k: nat, off: nat, n: nat, at: nat)
    requires RangeMapped(fs, k, off, off + n) && off <= at < off + n <= MAXBYTES
    ensures Addr(fs, k, SlotOf(at / BSIZE)) != 0
  {
    var bn := at / BSIZE;
    assert bn * BSIZE < off + n && off / BSIZE <= bn < MAXFILE;
  }

  lemma BmapOfMapped(fs: Fs, own: map<nat, Slot>, k: nat, bn: nat)
    requires Owned(fs, own, 0, 0) && !fs.halted && k < |fs.inodes| && bn < MAXFILE && Addr(fs, k, SlotOf(bn)) != 0
    ensures Bmap(fs, k, bn) == fs
  {
    if bn >= NDIRECT {
      assert Addr(fs, k, NDIRECT) != 0;
      PointerIsOwned(fs, own, 0, 0, k, NDIRECT);
    }
  }

  /** On a range without holes the loop changes nothing. */
  lemma {:induction false} ReadFromMapped(fs: Fs, result: (Fs, seq<Byte>), own: map<nat, Slot>, k: nat, off: nat,
                                          n: nat, got: seq<Byte>)
    requires Owned(fs, own, 0, 0) && !fs.halted && ReadsTo(fs, k, off, n, got, result)
    requires RangeMapped(fs, k, off, off + n)
    ensures result.0 == fs
    decreases n - |got|
  {
    if |got| < n {
      var at := off + |got|;
      var f, more := UnfoldRead(fs, result, k, off, n, got, at);
      InRange(fs, k, off, n, at);
      BmapOfMapped(fs, own, k, at / BSIZE);
      ReadFromMapped(fs, result, own, k, off, n, more);
    }
  }

  /** A loop that did not panic filled only holes, and behind it every block of the range is there. */
  ghost predicate ReadMapped(fs: Fs, r: Fs, k: nat, at: nat, end: nat) {
    !r.halted ==> Filled(fs, r, k) && (at < end ==> RangeMapped(r, k, at, end))
  }

  lemma ReadMappedMore(fs: Fs, f: Fs, r: Fs, k: nat, at: nat, mid: nat, end: nat)
    requires k < |fs.inodes| && Filled(fs, f, k) && RangeMapped(f, k, at, mid) && at < mid <= end
    requires ReadMapped(f, r, k, mid, end)
    ensures ReadMapped(fs, r, k, at, end)
  {
    if !r.halted {
      FilledTwice(fs, f, r, k);
      if mid < end {
        RangesMapped(f, r, k, at, mid, end);
      } else {
        RangeStays(f, r, k, at, mid);
      }
    }
  }

  lemma {:induction false} ReadFromMaps(fs: Fs, result: (Fs, seq<Byte>), own: map<nat, Slot>, k: nat, off: nat,
                                        n: nat, got: seq<Byte>, at: nat)
    requires Owned(fs, own, 0, 0) && !fs.halted && ReadsTo(fs, k, off, n, got, result) && at == off + |got|
    ensures ReadMapped(fs, result.0, k, at, off + n)
    decreases n - |got|
  {
    if |got| < n {
      var f, more := UnfoldRead(fs, result, k, off, n, got, at);
      var own' := BmapMaps(fs, own, k, at / BSIZE);
      if f.halted {
        ReadHalted(f, k, off, n, more);
      } else {
        var mid := off + |more|;
        OneBlockMapped(f, k, at, Chunk(n - |got|, at));
        ReadFromMaps(f, result, own', k, off, n, more, mid);
        ReadMappedMore(fs, f, result.0, k, at, mid, off + n);
      }
    }
  }

  /**
    readi leaves the file system as it was if and only if the range it reads has no hole: it
    allocates a block for a hole, though its callers need not have begun a transaction.
   */
  lemma ReadiQuietExactly(fs: Fs, own: map<nat, Slot>, k: nat, off: Word, n: Word, device: int)
    requires Owned(fs, own, 0, 0) && SizeOk(fs, k) && !fs.halted && fs.inodes[k].typ != T_DEV
    requires off <= fs.inodes[k].size && off + n < 0x1_0000_0000
    ensures var n' := Min(n, fs.inodes[k].size - off);
            Readi(fs, k, off, n, device).0 == fs <==> n' == 0 || RangeMapped(fs, k, off, off + n')
  {
    var n' := Min(n, fs.inodes[k].size - off);
    ReadiIs(fs, k, off, n, device);
    if n' > 0 {
      if RangeMapped(fs, k, off, off + n') {
        ReadFromMapped(fs, ReadFrom(fs, k, off, n', []), own, k, off, n', []);
      } else {
        ReadFromMaps(fs, ReadFrom(fs, k, off, n', []), own, k, off, n', [], off);
      }
    }
  }

  // ---------- reading back ----------

  lemma LoopMapped(fs: Fs, f: Fs, own: map<nat, Slot>, k: nat, src: seq<Byte>, off: nat, end: nat)
    returns (own': map<nat, Slot>)
    requires Owned(fs, own, 0, 0) && !fs.halted && WritesTo(fs, k, src, off, f) && src != [] && end == off + |src|
    ensures !f.halted ==> Owned(f, own', 0, 0) && RangeMapped(f, k, off, end)
  {
    own' := WriteAll(fs, f, own, k, src, off);
  }

  /** What a write leaves allocated it can read back without allocating. */
  lemma WrittenIsMapped(fs: Fs, own: map<nat, Slot>, k: nat, src: seq<Byte>, off: Word, device: int, end: Word)
    requires Owned(fs, own, 0, 0) && SizeOk(fs, k) && !fs.halted && fs.inodes[k].typ != T_DEV
    requires off <= fs.inodes[k].size && end == off + |src| <= MAXBYTES && src != []
    ensures var w := Writei(fs, k, src, off, device).0;
            !w.halted ==> RangeMapped(w, k, off, end)
  {
    WriteiIs(fs, k, src, off, device);
    var f := WriteFrom(fs, k, src, off);
    var own' := LoopMapped(fs, f, own, k, src, off, end);
    if !f.halted {
      GrownMapped(f, own', k, off, end);
    }
  }

  lemma GrownMapped(f: Fs, own: map<nat, Slot>, k: nat, off: nat, end: Word)
    requires Owned(f, own, 0, 0) && RangeMapped(f, k, off, end)
    ensures RangeMapped(Grown(f, k, end), k, off, end)
  {
    GrownAddrs(f, own, k, end);
  }

  /**
    What was written is what is read back, by a read that allocates nothing and so cannot run out
    of blocks.
   */
  lemma ReadBack(fs: Fs, own: map<nat, Slot>, k: nat, src: seq<Byte>, off: Word, device: int)
    requires Owned(fs, own, 0, 0) && SizeOk(fs, k) && !fs.halted && |src| < 0x1_0000_0000 && fs.inodes[k].typ != T_DEV
    requires off <= fs.inodes[k].size && off + |src| <= MAXBYTES
    ensures var w := Writei(fs, k, src, off, device).0;
            !w.halted ==> SizeOk(w, k) && Readi(w, k, off, |src|, device) == (w, src, |src|)
  {
    var own1 := WriteiRefines(fs, own, k, src, off, device);
    var w := Writei(fs, k, src, off, device).0;
    if !w.halted {
      var own2 := ReadiRefines(w, own1, k, off, |src|, device);
      ReadiQuietExactly(w, own1, k, off, |src|, device);
      SliceOfOverwrite(Content(fs, k), off, src);
      if src != [] {
        WrittenIsMapped(fs, own, k, src, off, device, off + |src|);
      }
    }
  }

  lemma SliceOfOverwrite(old_: seq<Byte>, off: nat, src: seq<Byte>)
    requires off <= |old_|
    ensures off + |src| <= |Overwrite(old_, off, src)| && Overwrite(old_, off, src)[off..off + |src|] == src
  {
  }
}
